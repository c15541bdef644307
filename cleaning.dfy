/** preProcess: drop repeated titles keeping the first row, sort by the
    raw Date text newest first, then drop the rows whose date does not
    parse. Whether a date parses is the parameter `valid`. */
module Cleaning {
  import opened Records
  import opened Dates

  /** The article_title values present in rows. */
  function Titles(rows: seq<Row>): set<string>
  {
    set r | r in rows :: r.news.title
  }

  predicate DistinctTitles(rows: seq<Row>)
  {
    forall i, j :: 0 <= i < j < |rows| ==> rows[i].news.title != rows[j].news.title
  }

  /** a keeps some of b's rows, in b's order. */
  predicate IsSubseq(a: seq<Row>, b: seq<Row>)
  {
    a == [] || (b != [] && ((a[0] == b[0] && IsSubseq(a[1..], b[1..])) || IsSubseq(a, b[1..])))
  }

  /** Row a's Date sorts at or after row b's. */
  predicate NewerOrSame(a: Row, b: Row)
  {
    TextLe(b.news.date, a.news.date)
  }

  /** Every adjacent pair is in descending Date order. */
  predicate NewestFirst(rows: seq<Row>)
  {
    forall i :: 0 < i < |rows| ==> NewerOrSame(rows[i - 1], rows[i])
  }

  /** Every pair is in descending Date order. */
  predicate NewestFirstPairs(rows: seq<Row>)
  {
    forall i, j :: 0 <= i < j < |rows| ==> NewerOrSame(rows[i], rows[j])
  }

  /** What the cleaned dataset promises. */
  predicate IsDataset(rows: seq<Row>, valid: string -> bool)
  {
    && DistinctTitles(rows)
    && NewestFirst(rows)
    && forall i :: 0 <= i < |rows| ==> valid(rows[i].news.date)
  }

  // ---------------------------------------------------------------------
  // First occurrence of a title

  /** Position of the first row titled t, or |rows| when there is none. */
  function FirstIndexOf(rows: seq<Row>, t: string): (k: nat)
    ensures k <= |rows|
    ensures k < |rows| ==> rows[k].news.title == t
    ensures forall j :: 0 <= j < k ==> rows[j].news.title != t
  {
    if rows == [] then 0
    else if rows[0].news.title == t then 0
    else 1 + FirstIndexOf(rows[1..], t)
  }

  /** The first row titled t, if any. */
  function FirstByTitle(rows: seq<Row>, t: string): (r: Option<Row>)
    ensures r.Some? <==> t in Titles(rows)
    ensures r.Some? ==> r.value in rows && r.value.news.title == t
  {
    var k := FirstIndexOf(rows, t);
    if k < |rows| then Some(rows[k])
    else
      assert forall r | r in rows :: r.news.title != t;
      None
  }

  lemma FirstByTitleCons(rows: seq<Row>, t: string)
    requires rows != []
    ensures FirstByTitle(rows, t) ==
      if rows[0].news.title == t then Some(rows[0]) else FirstByTitle(rows[1..], t)
  {
  }

  /** Rows of a come before rows of b, so a's first row of a title wins. */
  lemma {:induction false} FirstByTitleAppend(a: seq<Row>, b: seq<Row>, t: string)
    ensures FirstByTitle(a + b, t) ==
      if t in Titles(a) then FirstByTitle(a, t) else FirstByTitle(b, t)
  {
    if a == [] {
      assert a + b == b;
    } else {
      assert (a + b)[1..] == a[1..] + b;
      FirstByTitleCons(a + b, t);
      FirstByTitleCons(a, t);
      FirstByTitleAppend(a[1..], b, t);
      assert Titles(a) == {a[0].news.title} + Titles(a[1..]);
    }
  }

  /** With distinct titles, the first row of a title is the only one. */
  lemma FirstByTitleDistinct(rows: seq<Row>, x: Row)
    requires DistinctTitles(rows) && x in rows
    ensures FirstByTitle(rows, x.news.title) == Some(x)
  {
    var i :| 0 <= i < |rows| && rows[i] == x;
    var k := FirstIndexOf(rows, x.news.title);
    assert k <= i;
  }

  // ---------------------------------------------------------------------
  // drop_duplicates(subset='article_title', keep='first')

  function DedupeSeen(rows: seq<Row>, seen: set<string>): seq<Row>
  {
    if rows == [] then []
    else if rows[0].news.title in seen then DedupeSeen(rows[1..], seen)
    else [rows[0]] + DedupeSeen(rows[1..], seen + {rows[0].news.title})
  }

  function Dedupe(rows: seq<Row>): seq<Row>
  {
    DedupeSeen(rows, {})
  }

  lemma {:induction false} DedupeSeenKeepsFirst(rows: seq<Row>, seen: set<string>)
    ensures forall x :: x in DedupeSeen(rows, seen) <==>
      x.news.title !in seen && FirstByTitle(rows, x.news.title) == Some(x)
  {
    if rows != [] {
      var h := rows[0];
      forall t ensures FirstByTitle(rows, t) ==
        if h.news.title == t then Some(h) else FirstByTitle(rows[1..], t) {
        FirstByTitleCons(rows, t);
      }
      if h.news.title in seen {
        DedupeSeenKeepsFirst(rows[1..], seen);
      } else {
        DedupeSeenKeepsFirst(rows[1..], seen + {h.news.title});
      }
    }
  }

  lemma {:induction false} DedupeSeenDistinct(rows: seq<Row>, seen: set<string>)
    ensures DistinctTitles(DedupeSeen(rows, seen))
    ensures forall x :: x in DedupeSeen(rows, seen) ==> x.news.title !in seen
  {
    if rows != [] {
      var h := rows[0];
      if h.news.title in seen {
        DedupeSeenDistinct(rows[1..], seen);
      } else {
        var rest := DedupeSeen(rows[1..], seen + {h.news.title});
        DedupeSeenDistinct(rows[1..], seen + {h.news.title});
        var r := [h] + rest;
        forall i, j | 0 <= i < j < |r| ensures r[i].news.title != r[j].news.title {
          assert r[j] == rest[j - 1];
          if i > 0 {
            assert r[i] == rest[i - 1];
          }
        }
      }
    }
  }

  lemma {:induction false} DedupeSeenSubseq(rows: seq<Row>, seen: set<string>)
    ensures IsSubseq(DedupeSeen(rows, seen), rows)
  {
    if rows != [] {
      if rows[0].news.title in seen {
        DedupeSeenSubseq(rows[1..], seen);
      } else {
        DedupeSeenSubseq(rows[1..], seen + {rows[0].news.title});
      }
    }
  }

  /** Dedupe keeps, in input order, exactly one row per title present: the
      first row carrying it. */
  lemma DedupeSpec(rows: seq<Row>)
    ensures DistinctTitles(Dedupe(rows))
    ensures IsSubseq(Dedupe(rows), rows)
    ensures Titles(Dedupe(rows)) == Titles(rows)
    ensures forall x :: x in Dedupe(rows) <==> FirstByTitle(rows, x.news.title) == Some(x)
  {
    DedupeSeenDistinct(rows, {});
    DedupeSeenSubseq(rows, {});
    DedupeSeenKeepsFirst(rows, {});
    forall t | t in Titles(rows) ensures t in Titles(Dedupe(rows)) {
      var x := FirstByTitle(rows, t).value;
      assert x in Dedupe(rows);
    }
  }

  // ---------------------------------------------------------------------
  // sort_values(by='Date', ascending=False)

  /** Inserts x into rows already newest first. */
  function InsertByDate(x: Row, rows: seq<Row>): (r: seq<Row>)
    ensures multiset(r) == multiset(rows) + multiset{x}
    ensures r[0] == x || (rows != [] && r[0] == rows[0])
    ensures NewestFirst(rows) ==> NewestFirst(r)
  {
    if rows == [] || NewerOrSame(x, rows[0]) then [x] + rows
    else
      TextLeTotal(x.news.date, rows[0].news.date);
      assert rows == [rows[0]] + rows[1..];
      [rows[0]] + InsertByDate(x, rows[1..])
  }

  /** The rows newest first. Rows with equal dates may come in any order
      in the source; only order by date and permutation are claimed. */
  function SortByDate(rows: seq<Row>): (r: seq<Row>)
    ensures multiset(r) == multiset(rows)
    ensures NewestFirst(r)
  {
    if rows == [] then []
    else
      assert rows == [rows[0]] + rows[1..];
      InsertByDate(rows[0], SortByDate(rows[1..]))
  }

  lemma {:induction false} InsertByDateDistinct(x: Row, rows: seq<Row>)
    requires DistinctTitles(rows) && x.news.title !in Titles(rows)
    ensures DistinctTitles(InsertByDate(x, rows))
  {
    if rows == [] || NewerOrSame(x, rows[0]) {
      var r := [x] + rows;
      forall i, j | 0 <= i < j < |r| ensures r[i].news.title != r[j].news.title {
        assert r[j] == rows[j - 1];
        if i > 0 {
          assert r[i] == rows[i - 1];
        }
      }
    } else {
      var rest := InsertByDate(x, rows[1..]);
      InsertByDateDistinct(x, rows[1..]);
      var r := [rows[0]] + rest;
      forall i, j | 0 <= i < j < |r| ensures r[i].news.title != r[j].news.title {
        assert r[j] == rest[j - 1];
        if i > 0 {
          assert r[i] == rest[i - 1];
        } else {
          assert r[j] in multiset(rest);
          assert r[j] == x || r[j] in rows[1..];
        }
      }
    }
  }

  /** Sorting a title-distinct list keeps it title-distinct. */
  lemma {:induction false} SortByDateDistinct(rows: seq<Row>)
    requires DistinctTitles(rows)
    ensures DistinctTitles(SortByDate(rows))
  {
    if rows != [] {
      var sorted := SortByDate(rows[1..]);
      SortByDateDistinct(rows[1..]);
      forall y | y in sorted ensures y.news.title != rows[0].news.title {
        assert y in multiset(rows[1..]);
      }
      InsertByDateDistinct(rows[0], sorted);
    }
  }

  lemma {:induction false} NewestFirstChain(rows: seq<Row>, i: nat, j: nat)
    requires NewestFirst(rows) && i < j < |rows|
    ensures NewerOrSame(rows[i], rows[j])
    decreases j - i
  {
    if j > i + 1 {
      NewestFirstChain(rows, i, j - 1);
      TextLeTransitive(rows[j].news.date, rows[j - 1].news.date, rows[i].news.date);
    }
  }

  /** Ordered adjacent pairs make every pair ordered. */
  lemma NewestFirstAllPairs(rows: seq<Row>)
    requires NewestFirst(rows)
    ensures NewestFirstPairs(rows)
  {
    forall i, j | 0 <= i < j < |rows| ensures NewerOrSame(rows[i], rows[j]) {
      NewestFirstChain(rows, i, j);
    }
  }

  // ---------------------------------------------------------------------
  // pd.to_datetime(errors='coerce') then dropna(subset=['Date'])

  function KeepValidDates(rows: seq<Row>, valid: string -> bool): seq<Row>
  {
    if rows == [] then []
    else (if valid(rows[0].news.date) then [rows[0]] else []) + KeepValidDates(rows[1..], valid)
  }

  /** The filter keeps the rows in their order ... */
  lemma {:induction false} KeepValidDatesSubseq(rows: seq<Row>, valid: string -> bool)
    ensures IsSubseq(KeepValidDates(rows, valid), rows)
  {
    if rows != [] {
      var rest := KeepValidDates(rows[1..], valid);
      KeepValidDatesSubseq(rows[1..], valid);
      if valid(rows[0].news.date) {
        assert KeepValidDates(rows, valid) == [rows[0]] + rest;
        assert ([rows[0]] + rest)[1..] == rest;
      } else {
        assert KeepValidDates(rows, valid) == rest;
      }
    }
  }

  /** ... and keeps exactly the rows whose date is valid, each as often as
      it occurs. */
  lemma {:induction false} KeepValidDatesCount(rows: seq<Row>, valid: string -> bool, x: Row)
    ensures multiset(KeepValidDates(rows, valid))[x] == (if valid(x.news.date) then multiset(rows)[x] else 0)
  {
    if rows != [] {
      var h := rows[0];
      var rest := KeepValidDates(rows[1..], valid);
      KeepValidDatesCount(rows[1..], valid, x);
      assert rows == [h] + rows[1..];
      assert multiset(rows)[x] == multiset([h])[x] + multiset(rows[1..])[x];
      var head := if valid(h.news.date) then [h] else [];
      assert KeepValidDates(rows, valid) == head + rest;
      assert multiset(head + rest)[x] == multiset(head)[x] + multiset(rest)[x];
    }
  }

  /** A subsequence keeps membership, distinct titles and date order. */
  lemma {:induction false} SubseqPreserves(a: seq<Row>, b: seq<Row>)
    requires IsSubseq(a, b)
    ensures forall x :: x in a ==> x in b
    ensures DistinctTitles(b) ==> DistinctTitles(a)
    ensures NewestFirstPairs(b) ==> NewestFirstPairs(a)
  {
    if a != [] {
      if a[0] == b[0] && IsSubseq(a[1..], b[1..]) {
        SubseqPreserves(a[1..], b[1..]);
        forall j | 0 < j < |a| ensures exists m :: 0 < m < |b| && a[j] == b[m] {
          assert a[j] in a[1..];
          var m :| 0 <= m < |b[1..]| && b[1..][m] == a[j];
          assert a[j] == b[m + 1];
        }
        if DistinctTitles(b) {
          forall i, j | 0 <= i < j < |a| ensures a[i].news.title != a[j].news.title {
            if i == 0 {
              var m :| 0 < m < |b| && a[j] == b[m];
            } else {
              assert a[i] == a[1..][i - 1] && a[j] == a[1..][j - 1];
            }
          }
        }
        if NewestFirstPairs(b) {
          forall i, j | 0 <= i < j < |a| ensures NewerOrSame(a[i], a[j]) {
            if i == 0 {
              var m :| 0 < m < |b| && a[j] == b[m];
            } else {
              assert a[i] == a[1..][i - 1] && a[j] == a[1..][j - 1];
            }
          }
        }
      } else {
        SubseqPreserves(a, b[1..]);
      }
    }
  }

  // ---------------------------------------------------------------------
  // preProcess

  function PreProcess(rows: seq<Row>, valid: string -> bool): seq<Row>
  {
    KeepValidDates(SortByDate(Dedupe(rows)), valid)
  }

  /** Apart from order, the cleaned rows are the deduplicated rows with a
      valid date. */
  lemma PreProcessCount(rows: seq<Row>, valid: string -> bool, x: Row)
    ensures multiset(PreProcess(rows, valid))[x] == multiset(KeepValidDates(Dedupe(rows), valid))[x]
    ensures multiset(PreProcess(rows, valid))[x] == (if valid(x.news.date) then multiset(Dedupe(rows))[x] else 0)
  {
    KeepValidDatesCount(SortByDate(Dedupe(rows)), valid, x);
    KeepValidDatesCount(Dedupe(rows), valid, x);
  }

  /** A row is kept exactly when it is the first row of its title and its
      date is valid. */
  lemma PreProcessMembers(rows: seq<Row>, valid: string -> bool)
    ensures forall x :: x in PreProcess(rows, valid) <==>
      FirstByTitle(rows, x.news.title) == Some(x) && valid(x.news.date)
  {
    DedupeSpec(rows);
    forall x ensures x in PreProcess(rows, valid) <==>
      FirstByTitle(rows, x.news.title) == Some(x) && valid(x.news.date) {
      PreProcessCount(rows, valid, x);
      assert x in PreProcess(rows, valid) <==> multiset(PreProcess(rows, valid))[x] > 0;
      assert x in Dedupe(rows) <==> multiset(Dedupe(rows))[x] > 0;
    }
  }

  /** The cleaned rows have distinct titles, are newest first, and all
      carry valid dates. */
  lemma PreProcessDataset(rows: seq<Row>, valid: string -> bool)
    ensures IsDataset(PreProcess(rows, valid), valid)
  {
    var deduped := Dedupe(rows);
    var sorted := SortByDate(deduped);
    var kept := KeepValidDates(sorted, valid);
    DedupeSpec(rows);
    SortByDateDistinct(deduped);
    NewestFirstAllPairs(sorted);
    KeepValidDatesSubseq(sorted, valid);
    SubseqPreserves(kept, sorted);
    forall i | 0 <= i < |kept| ensures valid(kept[i].news.date) {
      KeepValidDatesCount(sorted, valid, kept[i]);
      assert multiset(kept)[kept[i]] > 0;
    }
  }

  /** Everything preProcess promises about its result. */
  lemma PreProcessSpec(rows: seq<Row>, valid: string -> bool)
    ensures IsDataset(PreProcess(rows, valid), valid)
    ensures forall x :: x in PreProcess(rows, valid) <==>
      FirstByTitle(rows, x.news.title) == Some(x) && valid(x.news.date)
    ensures multiset(PreProcess(rows, valid)) == multiset(KeepValidDates(Dedupe(rows), valid))
  {
    PreProcessDataset(rows, valid);
    PreProcessMembers(rows, valid);
    forall x ensures multiset(PreProcess(rows, valid))[x] == multiset(KeepValidDates(Dedupe(rows), valid))[x] {
      PreProcessCount(rows, valid, x);
    }
  }

  /** Dedupe runs before the date filter: when the first row of a title has
      an invalid date, no row of that title survives, whatever later rows
      carry. */
  lemma InvalidFirstDropsTitle(rows: seq<Row>, valid: string -> bool, t: string)
    requires FirstByTitle(rows, t).Some? && !valid(FirstByTitle(rows, t).value.news.date)
    ensures t !in Titles(PreProcess(rows, valid))
  {
    PreProcessSpec(rows, valid);
  }

  /** In a title-distinct list every row occurs at most once. */
  lemma {:induction false} DistinctCount(rows: seq<Row>, x: Row)
    requires DistinctTitles(rows)
    ensures multiset(rows)[x] == if x in rows then 1 else 0
  {
    if rows != [] {
      assert rows == [rows[0]] + rows[1..];
      DistinctCount(rows[1..], x);
      if x == rows[0] {
        assert x !in rows[1..];
      }
    }
  }

  /** Two title-distinct lists with the same rows are permutations of
      each other. */
  lemma SameRowsSameMultiset(a: seq<Row>, b: seq<Row>)
    requires DistinctTitles(a) && DistinctTitles(b)
    requires forall x :: x in a <==> x in b
    ensures multiset(a) == multiset(b)
  {
    forall x ensures multiset(a)[x] == multiset(b)[x] {
      DistinctCount(a, x);
      DistinctCount(b, x);
    }
  }
}
