// The capped, re-parsed navigation history refines the unbounded list of most recently visited pages.
module NavigationRefinement {
  import opened Wrappers
  import opened JsText
  import opened NavigationHistory

  /** What the properties speak of: labels may lose a trailing space on each parse, hrefs and times do not. */
  datatype Mark = Mark(href: string, time: int)

  function Marks(entries: seq<Entry>): (marks: seq<Mark>)
    ensures |marks| == |entries|
    ensures forall i :: 0 <= i < |entries| ==> marks[i] == Mark(entries[i].href, TimeOf(entries[i]))
  {
    seq(|entries|, i requires 0 <= i < |entries| => Mark(entries[i].href, TimeOf(entries[i])))
  }

  // ---------------------------------------------------------------------------------------------------
  // The unbounded list
  // ---------------------------------------------------------------------------------------------------

  function Drop(marks: seq<Mark>, href: string): seq<Mark> {
    if marks == [] then []
    else if marks[0].href == href then Drop(marks[1..], href)
    else [marks[0]] + Drop(marks[1..], href)
  }

  /** Every page visited, the latest first, each once with the time of its latest visit. */
  function MostRecent(visits: seq<Visit>): seq<Mark> {
    if visits == [] then []
    else
      var before, visit := MostRecent(visits[..|visits| - 1]), visits[|visits| - 1];
      if !visit.Tracked() then before
      else
        var href := Trim(visit.href.value);
        [Mark(href, if visit.Time().Some? then visit.Time().value else 0)] + Drop(before, href)
  }

  predicate VisitsPage(visit: Visit, href: string) {
    visit.Tracked() && Trim(visit.href.value) == href
  }

  /** The position of the latest visit of a page, -1 when there is none. */
  function LatestVisit(visits: seq<Visit>, href: string): (k: int)
    ensures -1 <= k < |visits|
    ensures k >= 0 ==> VisitsPage(visits[k], href)
    ensures forall j :: k < j < |visits| ==> !VisitsPage(visits[j], href)
  {
    if visits == [] then -1
    else if VisitsPage(visits[|visits| - 1], href) then |visits| - 1
    else
      var k := LatestVisit(visits[..|visits| - 1], href);
      assert forall j :: 0 <= j < |visits| - 1 ==> visits[..|visits| - 1][j] == visits[j];
      k
  }

  ghost predicate Distinct(marks: seq<Mark>) {
    forall i, j :: 0 <= i < j < |marks| ==> marks[i].href != marks[j].href
  }

  lemma {:induction false} DropKeepsOthers(marks: seq<Mark>, href: string)
    ensures forall mark :: mark in Drop(marks, href) <==> mark in marks && mark.href != href
  {
    if marks != [] {
      DropKeepsOthers(marks[1..], href);
      assert marks == [marks[0]] + marks[1..];
    }
  }

  predicate IsLatest(visits: seq<Visit>, mark: Mark) {
    var k := LatestVisit(visits, mark.href);
    k >= 0 && mark.time == if visits[k].Time().Some? then visits[k].Time().value else 0
  }

  lemma LatestVisitAfter(visits: seq<Visit>, visit: Visit, href: string)
    ensures LatestVisit(visits + [visit], href)
         == if VisitsPage(visit, href) then |visits| else LatestVisit(visits, href)
  {
    assert (visits + [visit])[..|visits|] == visits;
  }

  lemma MarkStaysLatest(visits: seq<Visit>, visit: Visit, mark: Mark)
    requires IsLatest(visits, mark) && !VisitsPage(visit, mark.href)
    ensures IsLatest(visits + [visit], mark)
  {
    LatestVisitAfter(visits, visit, mark.href);
  }

  lemma {:induction false} MostRecentListsLatest(visits: seq<Visit>)
    ensures forall mark <- MostRecent(visits) :: IsLatest(visits, mark)
    ensures forall href :: LatestVisit(visits, href) >= 0 ==> exists mark <- MostRecent(visits) :: mark.href == href
  {
    if visits != [] {
      var front, visit := visits[..|visits| - 1], visits[|visits| - 1];
      assert visits == front + [visit];
      MostRecentListsLatest(front);
      var before, href := MostRecent(front), if visit.Tracked() then Trim(visit.href.value) else "";
      DropKeepsOthers(before, href);
      forall mark <- MostRecent(visits) ensures IsLatest(visits, mark) {
        if mark in before && !VisitsPage(visit, mark.href) {
          MarkStaysLatest(front, visit, mark);
        } else {
          LatestVisitAfter(front, visit, mark.href);
        }
      }
      forall other | LatestVisit(visits, other) >= 0 ensures exists mark <- MostRecent(visits) :: mark.href == other {
        LatestVisitAfter(front, visit, other);
        if VisitsPage(visit, other) {
          assert MostRecent(visits)[0].href == other;
        } else {
          var mark :| mark in before && mark.href == other;
          assert visit.Tracked() ==> mark in Drop(before, href);
        }
      }
    }
  }

  ghost predicate InOrderOfLatest(visits: seq<Visit>, marks: seq<Mark>) {
    forall i, j :: 0 <= i < j < |marks| ==> LatestVisit(visits, marks[i].href) > LatestVisit(visits, marks[j].href)
  }

  lemma {:induction false} MostRecentIsInOrder(visits: seq<Visit>)
    ensures InOrderOfLatest(visits, MostRecent(visits))
  {
    if visits != [] {
      var front, visit := visits[..|visits| - 1], visits[|visits| - 1];
      assert visits == front + [visit];
      var before := MostRecent(front);
      MostRecentIsInOrder(front);
      var kept := if visit.Tracked() then Drop(before, Trim(visit.href.value)) else before;
      if visit.Tracked() {
        DropKeepsLatestOrder(front, before, Trim(visit.href.value));
        DropKeepsOthers(before, Trim(visit.href.value));
      }
      forall i | 0 <= i < |kept| ensures LatestVisit(visits, kept[i].href) == LatestVisit(front, kept[i].href) {
        assert kept[i] in kept;
        LatestVisitAfter(front, visit, kept[i].href);
      }
      assert InOrderOfLatest(visits, kept);
      if visit.Tracked() {
        LatestVisitAfter(front, visit, Trim(visit.href.value));
        assert MostRecent(visits)[1..] == kept;
      }
    }
  }

  /** MostRecent is what its name says: it lists exactly the pages visited, with the time of their latest visit,
      in strictly decreasing order of that visit, hence each once. */
  lemma MostRecentIsByLatestVisit(visits: seq<Visit>)
    ensures InOrderOfLatest(visits, MostRecent(visits)) && Distinct(MostRecent(visits))
    ensures forall mark <- MostRecent(visits) :: IsLatest(visits, mark)
    ensures forall href :: LatestVisit(visits, href) >= 0 ==> exists mark <- MostRecent(visits) :: mark.href == href
  {
    MostRecentListsLatest(visits);
    MostRecentIsInOrder(visits);
    var marks := MostRecent(visits);
    forall i, j | 0 <= i < j < |marks| ensures marks[i].href != marks[j].href {
      assert LatestVisit(visits, marks[i].href) > LatestVisit(visits, marks[j].href);
    }
  }

  lemma {:induction false} DropKeepsLatestOrder(visits: seq<Visit>, marks: seq<Mark>, href: string)
    requires InOrderOfLatest(visits, marks)
    ensures InOrderOfLatest(visits, Drop(marks, href))
  {
    if marks != [] {
      DropKeepsLatestOrder(visits, marks[1..], href);
      DropKeepsOthers(marks[1..], href);
      var rest := Drop(marks[1..], href);
      forall j | 0 <= j < |rest| ensures LatestVisit(visits, marks[0].href) > LatestVisit(visits, rest[j].href) {
        assert rest[j] in marks[1..];
      }
    }
  }

  // ---------------------------------------------------------------------------------------------------
  // Truncation loses nothing
  // ---------------------------------------------------------------------------------------------------

  lemma {:induction false} DropAbsent(marks: seq<Mark>, href: string)
    requires forall mark <- marks :: mark.href != href
    ensures Drop(marks, href) == marks
  {
    if marks != [] {
      assert marks[0] in marks && forall mark <- marks[1..] :: mark in marks;
      DropAbsent(marks[1..], href);
    }
  }

  /** Dropping a page from the first n + 1 distinct entries still leaves the right first n. */
  lemma {:induction false} TruncateThenDrop(marks: seq<Mark>, href: string, n: nat)
    requires Distinct(marks)
    ensures Slice(Drop(Slice(marks, n + 1), href), n) == Slice(Drop(marks, href), n)
  {
    if marks != [] && |marks| > n + 1 {
      var head, rest := marks[0], marks[1..];
      assert Slice(marks, n + 1)[1..] == rest[..n] && Slice(marks, n + 1)[0] == head;
      if head.href == href {
        assert forall mark <- rest :: mark.href != href;
        assert forall mark <- rest[..n] :: mark in rest;
        DropAbsent(rest, href);
        DropAbsent(rest[..n], href);
      } else if n > 0 {
        TruncateThenDrop(rest, href, n - 1);
        assert Slice(rest, n) == rest[..n];
        SliceAfterHead(head, Drop(rest[..n], href), Drop(rest, href), n);
        hide Slice;
      }
    }
  }

  // ---------------------------------------------------------------------------------------------------
  // Parsing again changes nothing
  // ---------------------------------------------------------------------------------------------------

  ghost predicate Sorted(marks: seq<Mark>) {
    forall i, j :: 0 <= i < j < |marks| ==> marks[i].time >= marks[j].time
  }

  ghost predicate ProperHrefs(marks: seq<Mark>) {
    forall mark <- marks :: mark.href != "" && Trim(mark.href) == mark.href
  }

  ghost predicate Proper(marks: seq<Mark>) {
    Distinct(marks) && Sorted(marks) && ProperHrefs(marks)
  }

  predicate Dated(entries: seq<Entry>) {
    forall entry <- entries :: entry.visitedAt.Some?
  }

  lemma {:induction false} CollectKeepsMarks(items: seq<Entry>, result: seq<Entry>)
    requires Dated(items) && Dated(result) && |result| + |items| <= MAX_HISTORY
    requires Distinct(Marks(result + items)) && ProperHrefs(Marks(items))
    ensures Marks(Collect(items, result)) == Marks(result + items)
    ensures Dated(Collect(items, result))
    decreases |items|
  {
    if items == [] {
      assert result + items == result;
    } else {
      var item, rest := items[0], items[1..];
      assert Marks(items)[0] in Marks(items);
      assert !HasHref(result, item.href) by {
        forall i | 0 <= i < |result| ensures result[i].href != item.href {
          assert Marks(result + items)[i].href != Marks(result + items)[|result|].href;
        }
      }
      assert Trim(item.href) == item.href && item.href != "";
      hide Trim, LabelFor;
      var next := result + [Cleaned(item)];
      assert Marks(next + rest) == Marks(result + items);
      assert forall mark <- Marks(rest) :: mark in Marks(items) by {
        assert Marks(items)[1..] == Marks(rest);
      }
      if |result| + 1 >= MAX_HISTORY {
        assert rest == [] && next + rest == next;
      } else {
        CollectKeepsMarks(rest, next);
      }
    }
  }

  lemma {:induction false} SortOfSorted(entries: seq<Entry>)
    requires Sorted(Marks(entries))
    ensures SortByTime(entries) == entries
  {
    if entries != [] {
      assert Marks(entries)[1..] == Marks(entries[1..]);
      SortOfSorted(entries[1..]);
    }
  }

  /** Parsing a list that is already a proper history keeps its hrefs and times, in order. */
  lemma ParseKeepsMarks(entries: seq<Entry>)
    requires Dated(entries) && |entries| <= MAX_HISTORY && Proper(Marks(entries))
    ensures Marks(Parse(entries)) == Marks(entries)
    ensures Dated(Parse(entries)) && |Parse(entries)| == |entries|
  {
    assert [] + entries == entries;
    CollectKeepsMarks(entries, []);
    SortOfSorted(Collect(entries, []));
  }

  // ---------------------------------------------------------------------------------------------------
  // The refinement
  // ---------------------------------------------------------------------------------------------------

  /** The tracked visits have readable times, in non-decreasing order. */
  ghost predicate InOrder(visits: seq<Visit>) {
    && (forall i :: 0 <= i < |visits| && visits[i].Tracked() ==> visits[i].Time().Some?)
    && (forall i, j :: 0 <= i < j < |visits| && visits[i].Tracked() && visits[j].Tracked() ==>
          visits[i].Time().value <= visits[j].Time().value)
  }

  lemma {:induction false} MostRecentHrefs(visits: seq<Visit>)
    ensures ProperHrefs(MostRecent(visits))
  {
    if visits != [] {
      var front, visit := visits[..|visits| - 1], visits[|visits| - 1];
      MostRecentHrefs(front);
      if visit.Tracked() {
        DropKeepsOthers(MostRecent(front), Trim(visit.href.value));
        TrimIsTrimmed(visit.href.value);
        TrimOfTrimmed(Trim(visit.href.value));
      }
    }
  }

  lemma MostRecentIsProper(visits: seq<Visit>)
    requires InOrder(visits)
    ensures Proper(MostRecent(visits))
  {
    MostRecentHrefs(visits);
    MostRecentIsByLatestVisit(visits);
    var marks := MostRecent(visits);
    forall i, j | 0 <= i < j < |marks| ensures marks[i].time >= marks[j].time {
      assert IsLatest(visits, marks[i]) && IsLatest(visits, marks[j]);
      assert LatestVisit(visits, marks[i].href) > LatestVisit(visits, marks[j].href);
    }
  }

  lemma {:induction false} MarksOfWithout(entries: seq<Entry>, href: string)
    ensures Marks(Without(entries, href)) == Drop(Marks(entries), href)
    ensures Dated(entries) ==> Dated(Without(entries, href))
  {
    if entries != [] {
      var head, rest := entries[0], entries[1..];
      MarksOfWithout(rest, href);
      assert Marks(entries)[1..] == Marks(rest);
      assert Marks([head] + Without(rest, href)) == [Marks(entries)[0]] + Marks(Without(rest, href));
      assert head in entries && forall entry <- rest :: entry in entries;
    }
  }

  lemma ProperPrefix(marks: seq<Mark>, n: nat)
    requires Proper(marks)
    ensures Proper(Slice(marks, n))
  {
  }

  /** What is stored, read back, is a proper history of at most fifty dated entries. */
  ghost predicate Reads(stored: Option<Stored>, marks: seq<Mark>) {
    var entries := ReadStored(stored);
    Marks(entries) == marks && Dated(entries) && |entries| <= MAX_HISTORY
  }

  lemma StoredIsRead(entries: seq<Entry>)
    requires Dated(entries) && |entries| <= MAX_HISTORY && Proper(Marks(entries))
    ensures Reads(Some(Items(Parse(entries))), Marks(entries))
  {
    ParseKeepsMarks(entries);
    ParseKeepsMarks(Parse(entries));
  }

  lemma AppliedVisit(existing: seq<Entry>, marks: seq<Mark>, visit: Visit)
    requires Distinct(marks) && Marks(existing) == Slice(marks, MAX_HISTORY)
    requires Dated(existing) && |existing| <= MAX_HISTORY
    requires visit.Tracked() && visit.Time().Some?
    ensures var applied := ApplyVisit(existing, visit);
            var mark := Mark(Trim(visit.href.value), visit.Time().value);
            && Dated(applied) && |applied| <= MAX_HISTORY
            && Marks(applied) == Slice([mark] + Drop(marks, mark.href), MAX_HISTORY)
  {
    hide LabelFor, Trim, Distinct;
    var href := Trim(visit.href.value);
    var mark, head := Mark(href, visit.Time().value), Entry(href, LabelFor(visit.caption, href), visit.Time());
    var moved := [head] + Without(existing, href);
    MarksOfWithout(existing, href);
    TruncateThenDrop(marks, href, MAX_HISTORY - 1);
    assert Marks(moved) == [mark] + Drop(Slice(marks, MAX_HISTORY), href);
    assert Marks(ApplyVisit(existing, visit)) == Slice(Marks(moved), MAX_HISTORY);
    SliceAfterHead(mark, Drop(Slice(marks, MAX_HISTORY), href), Drop(marks, href), MAX_HISTORY);
  }

  /** One visit: the stored history moves exactly as the unbounded list does. */
  lemma RecordedRefines(stored: Option<Stored>, marks: seq<Mark>, visit: Visit)
    requires Proper(marks) && Reads(stored, Slice(marks, MAX_HISTORY))
    requires visit.Tracked() && visit.Time().Some?
    requires Proper([Mark(Trim(visit.href.value), visit.Time().value)] + Drop(marks, Trim(visit.href.value)))
    ensures var mark := Mark(Trim(visit.href.value), visit.Time().value);
            Reads(Recorded(stored, visit), Slice([mark] + Drop(marks, mark.href), MAX_HISTORY))
  {
    assert Distinct(marks);
    hide Proper, Distinct, Parse, Trim, Marks, Drop, Dated, ApplyVisit;
    var mark := Mark(Trim(visit.href.value), visit.Time().value);
    AppliedVisit(ReadStored(stored), marks, visit);
    ProperPrefix([mark] + Drop(marks, mark.href), MAX_HISTORY);
    StoredIsRead(ApplyVisit(ReadStored(stored), visit));
  }

  lemma SliceAfterHead(mark: Mark, a: seq<Mark>, b: seq<Mark>, n: nat)
    requires n > 0 && Slice(a, n - 1) == Slice(b, n - 1)
    ensures Slice([mark] + a, n) == Slice([mark] + b, n)
  {
    assert Slice([mark] + a, n) == [mark] + Slice(a, n - 1);
    assert Slice([mark] + b, n) == [mark] + Slice(b, n - 1);
  }

  lemma {:induction false} RecordAllRefines(visits: seq<Visit>)
    requires InOrder(visits)
    ensures Reads(RecordAll(None, visits), Slice(MostRecent(visits), MAX_HISTORY))
  {
    MostRecentIsProper(visits);
    if visits != [] {
      var front, visit := visits[..|visits| - 1], visits[|visits| - 1];
      RecordAllRefines(front);
      MostRecentIsProper(front);
      if visit.Tracked() {
        RecordedRefines(RecordAll(None, front), MostRecent(front), visit);
      } else if visit.href.Some? {
        var existing := ReadStored(RecordAll(None, front));
        ProperPrefix(MostRecent(front), MAX_HISTORY);
        ParseKeepsMarks(existing);
        StoredIsRead(Parse(existing));
      }
    }
  }

  /** After any sequence of visits recorded in order of time, the stored history is the first fifty entries of
      the unbounded list: truncating, re-parsing and sorting on every read and write loses nothing. */
  lemma HistoryIsMostRecent(visits: seq<Visit>)
    requires InOrder(visits)
    ensures Marks(ReadStored(RecordAll(None, visits))) == Slice(MostRecent(visits), MAX_HISTORY)
  {
    RecordAllRefines(visits);
  }

  // ---------------------------------------------------------------------------------------------------
  // Any input
  // ---------------------------------------------------------------------------------------------------

  ghost predicate ByTime(entries: seq<Entry>) {
    forall i, j :: 0 <= i < j < |entries| ==> TimeOf(entries[i]) >= TimeOf(entries[j])
  }

  lemma {:induction false} InsertAddsOne(entry: Entry, entries: seq<Entry>)
    ensures multiset(Insert(entry, entries)) == multiset(entries) + multiset{entry}
    ensures forall other <- Insert(entry, entries) :: other == entry || other in entries
  {
    if entries != [] {
      InsertAddsOne(entry, entries[1..]);
      assert entries == [entries[0]] + entries[1..];
    }
  }

  lemma {:induction false} InsertKeepsOrder(entry: Entry, entries: seq<Entry>)
    requires ByTime(entries)
    ensures ByTime(Insert(entry, entries))
  {
    if entries != [] && TimeOf(entry) < TimeOf(entries[0]) {
      var head, rest := entries[0], entries[1..];
      InsertKeepsOrder(entry, rest);
      InsertAddsOne(entry, rest);
      forall other <- Insert(entry, rest) ensures TimeOf(head) >= TimeOf(other) {
        if other in rest {
          var i :| 0 <= i < |rest| && rest[i] == other;
          assert entries[i + 1] == other;
        }
      }
    }
  }

  /** The sort rearranges the entries by decreasing time. */
  lemma {:induction false} SortIsPermutation(entries: seq<Entry>)
    ensures ByTime(SortByTime(entries))
    ensures multiset(SortByTime(entries)) == multiset(entries)
  {
    if entries != [] {
      SortIsPermutation(entries[1..]);
      InsertKeepsOrder(entries[0], SortByTime(entries[1..]));
      InsertAddsOne(entries[0], SortByTime(entries[1..]));
      assert entries == [entries[0]] + entries[1..];
    }
  }

  /** An entry of a parsed history is a dated item with its href and label cleaned. */
  predicate ComesFrom(items: seq<Entry>, entry: Entry) {
    && entry.visitedAt.Some? && entry.href != "" && Trimmed(entry.href)
    && exists item <- items :: entry == Cleaned(item)
  }

  lemma {:induction false} CollectedComeFromItems(items: seq<Entry>, result: seq<Entry>, all: seq<Entry>)
    requires (forall item <- items :: item in all) && forall entry <- result :: ComesFrom(all, entry)
    requires Distinct(Marks(result))
    requires |result| < MAX_HISTORY
    ensures forall entry <- Collect(items, result) :: ComesFrom(all, entry)
    ensures Distinct(Marks(Collect(items, result))) && |Collect(items, result)| <= MAX_HISTORY
    decreases |items|
  {
    if items != [] {
      var item, rest := items[0], items[1..];
      assert item in all && forall other <- rest :: other in all;
      if !Accepts(result, item) {
        CollectedComeFromItems(rest, result, all);
      } else {
        var next := result + [Cleaned(item)];
        TrimIsTrimmed(item.href);
        assert ComesFrom(all, Cleaned(item));
        assert Distinct(Marks(next)) by {
          forall i | 0 <= i < |result| ensures Marks(next)[i].href != Trim(item.href) {
            assert result[i] in result;
          }
        }
        if |result| + 1 < MAX_HISTORY {
          CollectedComeFromItems(rest, next, all);
        }
      }
    }
  }

  lemma DistinctSurvivesSorting(entries: seq<Entry>, sorted: seq<Entry>)
    requires multiset(sorted) == multiset(entries) && Distinct(Marks(entries))
    ensures Distinct(Marks(sorted))
  {
    forall i, j | 0 <= i < j < |sorted| ensures sorted[i].href != sorted[j].href {
      if sorted[i].href == sorted[j].href {
        assert sorted[i] in multiset(entries) && sorted[j] in multiset(entries);
        var a :| 0 <= a < |entries| && entries[a] == sorted[i];
        var b :| 0 <= b < |entries| && entries[b] == sorted[j];
        assert Marks(entries)[a].href == Marks(entries)[b].href;
        assert sorted[i] == sorted[j];
        TwiceIn(sorted, i, j);
        var x, y := TwiceFrom(entries, sorted[i]);
      }
    }
  }

  lemma TwiceIn(entries: seq<Entry>, i: nat, j: nat)
    requires i < j < |entries| && entries[i] == entries[j]
    ensures multiset(entries)[entries[i]] >= 2
  {
    assert entries == entries[..j] + [entries[j]] + entries[j + 1..];
    assert entries[..j][i] == entries[i];
  }

  lemma {:induction false} TwiceFrom(entries: seq<Entry>, entry: Entry) returns (x: nat, y: nat)
    requires multiset(entries)[entry] >= 2
    ensures x < y < |entries| && entries[x] == entry && entries[y] == entry
  {
    assert entries == [entries[0]] + entries[1..];
    if entries[0] == entry {
      assert entry in entries[1..];
      x := 0;
      y :| 1 <= y < |entries| && entries[y] == entry;
    } else {
      x, y := TwiceFrom(entries[1..], entry);
      x, y := x + 1, y + 1;
    }
  }

  /** Whatever is stored, reading gives at most fifty distinct, dated entries by decreasing time, each taken
      from an item of the stored list. */
  lemma ParsedIsHistory(items: seq<Entry>)
    ensures |Parse(items)| <= MAX_HISTORY && Sorted(Marks(Parse(items))) && Distinct(Marks(Parse(items)))
    ensures forall entry <- Parse(items) :: ComesFrom(items, entry)
  {
    CollectedComeFromItems(items, [], items);
    var collected := Collect(items, []);
    SortIsPermutation(collected);
    assert |multiset(Parse(items))| == |multiset(collected)|;
    forall entry <- Parse(items) ensures ComesFrom(items, entry) {
      assert entry in multiset(collected);
    }
    DistinctSurvivesSorting(collected, Parse(items));
  }

  lemma {:induction false} WithoutExcludes(entries: seq<Entry>, href: string)
    ensures forall entry <- Without(entries, href) :: entry in entries && entry.href != href
  {
    if entries != [] {
      WithoutExcludes(entries[1..], href);
    }
  }

  lemma UnreadableVisitForgets(stored: Option<Stored>, visit: Visit)
    requires visit.Tracked() && visit.visitedAt.Unreadable?
    ensures !HasHref(ReadStored(Recorded(stored, visit)), Trim(visit.href.value))
  {
    var href, existing := Trim(visit.href.value), ReadStored(stored);
    if stored.Some? && stored.value.Items? {
      ParsedIsHistory(stored.value.items);
    }
    WithoutExcludes(existing, href);
    var moved := ApplyVisit(existing, visit);
    forall item <- moved | item.visitedAt.Some? ensures item.href != href && Trim(item.href) == item.href {
      TrimOfTrimmed(item.href);
    }
    ParsedIsHistory(moved);
    forall entry <- Parse(moved) ensures entry.href != href && Trim(entry.href) == entry.href {
      assert ComesFrom(moved, entry);
      TrimOfTrimmed(entry.href);
    }
    ParsedIsHistory(Parse(moved));
    forall entry <- Parse(Parse(moved)) ensures entry.href != href {
      assert ComesFrom(Parse(moved), entry);
    }
  }

  lemma {:induction false} CollectExtends(items: seq<Entry>, result: seq<Entry>)
    ensures result <= Collect(items, result)
    decreases |items|
  {
    if items != [] {
      CollectExtends(items[1..], result);
      CollectExtends(items[1..], result + [Cleaned(items[0])]);
    }
  }

  lemma SortKeepsHref(entries: seq<Entry>, entry: Entry)
    requires entry in entries
    ensures HasHref(SortByTime(entries), entry.href)
  {
    SortIsPermutation(entries);
    assert entry in multiset(entries);
    assert entry in SortByTime(entries);
  }

  lemma FirstIsParsed(items: seq<Entry>)
    requires items != [] && Trim(items[0].href) != "" && items[0].visitedAt.Some?
    ensures HasHref(Parse(items), Trim(items[0].href))
  {
    var first := Cleaned(items[0]);
    assert [] + [first] == [first];
    CollectExtends(items[1..], [first]);
    assert [first] <= Collect(items, []);
    assert Collect(items, [])[0] == first;
    SortKeepsHref(Collect(items, []), first);
  }

  /** What was read once is read again. */
  lemma ParseKeepsHrefs(items: seq<Entry>)
    ensures Marks(Parse(Parse(items))) == Marks(Parse(items))
  {
    var parsed := Parse(items);
    ParsedIsHistory(items);
    forall i | 0 <= i < |parsed|
      ensures parsed[i].href != "" && Trim(parsed[i].href) == parsed[i].href && parsed[i].visitedAt.Some?
    {
      assert parsed[i] in parsed && ComesFrom(items, parsed[i]);
      TrimOfTrimmed(parsed[i].href);
    }
    assert Dated(parsed) && Proper(Marks(parsed));
    ParseKeepsMarks(parsed);
  }

  /** After a visit its page is in the history exactly when the visit does not come with an unreadable time; one that
      does also removes the page's earlier entry. */
  lemma VisitIsRecordedExactly(stored: Option<Stored>, visit: Visit)
    requires visit.Tracked()
    ensures HasHref(ReadStored(Recorded(stored, visit)), Trim(visit.href.value)) <==> !visit.visitedAt.Unreadable?
  {
    var href, moved := Trim(visit.href.value), ApplyVisit(ReadStored(stored), visit);
    if visit.visitedAt.Unreadable? {
      UnreadableVisitForgets(stored, visit);
    } else {
      assert moved[0].href == href && Trim(href) == href by {
        hide Parse;
        TrimIsTrimmed(visit.href.value);
        TrimOfTrimmed(href);
      }
      assert ReadStored(Recorded(stored, visit)) == Parse(Parse(moved));
      hide Parse, Trim, ReadStored, Recorded;
      FirstIsParsed(moved);
      ParseKeepsHrefs(moved);
      SameHrefs(Parse(moved), Parse(Parse(moved)), href);
    }
  }

  lemma SameHrefs(once: seq<Entry>, twice: seq<Entry>, href: string)
    requires Marks(twice) == Marks(once) && HasHref(once, href)
    ensures HasHref(twice, href)
  {
    var entry :| entry in once && entry.href == href;
    var i :| 0 <= i < |once| && once[i] == entry;
    assert Marks(once)[i] == Marks(twice)[i];
    assert twice[i] in twice;
  }

  // ---------------------------------------------------------------------------------------------------
  // Histories do not mix
  // ---------------------------------------------------------------------------------------------------

  /** As long as user ids hold no colon, two histories share a key only when user and organization agree. */
  lemma StorageKeysAreDistinct(user1: string, organization1: string, user2: string, organization2: string)
    requires ':' !in Trim(user1) && ':' !in Trim(user2)
    ensures StorageKey(user1, organization1) == StorageKey(user2, organization2)
            <==> Trim(user1) == Trim(user2) && Trim(organization1) == Trim(organization2)
  {
    var prefix := "planwise:nav-history:";
    var u1, o1, u2, o2 := Trim(user1), Trim(organization1), Trim(user2), Trim(organization2);
    hide Trim;
    assert StorageKey(user1, organization1) == prefix + (u1 + [':'] + o1);
    assert StorageKey(user2, organization2) == prefix + (u2 + [':'] + o2);
    if StorageKey(user1, organization1) == StorageKey(user2, organization2) {
      assert (prefix + (u1 + [':'] + o1))[|prefix|..] == u1 + [':'] + o1;
      assert (prefix + (u2 + [':'] + o2))[|prefix|..] == u2 + [':'] + o2;
      SplitFirst(u1, o1, ':');
      SplitFirst(u2, o2, ':');
      assert u1 == Split(u1 + [':'] + o1, ':')[0] == u2;
      assert (u1 + [':'] + o1)[|u1| + 1..] == o1 && (u2 + [':'] + o2)[|u2| + 1..] == o2;
    }
  }
}
