// What the navigation history shows, told from the visits as they are reported: the page, the label, the time given
// with the visit if there is one, and what the clock showed.
module NavigationLaws {
  import opened Wrappers
  import opened JsText
  import opened NavigationHistory
  import opened NavigationRefinement

  // ---------------------------------------------------------------------------------------------------
  // Each entry tells the latest visit of its page
  // ---------------------------------------------------------------------------------------------------

  /** The entry is dated with the time given, or with the clock when none is given, and carries the first 120
      characters of the label, or of the page when the label is blank. */
  predicate Tells(entry: Entry, visit: Visit) {
    && entry.caption == Trim(Slice(if Trim(visit.caption) != "" then Trim(visit.caption) else entry.href, 120))
    && (visit.visitedAt.Absent? ==> entry.visitedAt == Some(visit.now))
    && (visit.visitedAt.Given? ==> entry.visitedAt == Some(visit.visitedAt.ms))
    && !visit.visitedAt.Unreadable?
  }

  predicate TellsLatest(visits: seq<Visit>, entry: Entry) {
    var k := LatestVisit(visits, entry.href);
    && k >= 0 && Tells(entry, visits[k])
    && visits[k].href.Some? && Trim(visits[k].href.value) == entry.href && entry.href != ""
  }

  predicate AllTellLatest(visits: seq<Visit>, entries: seq<Entry>) {
    forall entry <- entries :: TellsLatest(visits, entry)
  }

  /** A label cut at 120 characters settles after one more trimming. */
  lemma LabelSettles(caption: string, href: string)
    requires href != "" && Trim(href) == href
    ensures LabelFor(LabelFor(caption, href), href) == Trim(LabelFor(caption, href))
    ensures LabelFor(Trim(LabelFor(caption, href)), href) == Trim(LabelFor(caption, href))
  {
    var cut := LabelFor(caption, href);
    TrimIsTrimmed(caption);
    TrimIsTrimmed(href);
    assert cut != "" && cut[0] in cut && !IsSpace(cut[0]);
    TrimIsTrimmed(cut);
    TrimOfTrimmed(Trim(cut));
    assert |Trim(cut)| <= 120 by {
      TrimShortens(cut);
    }
  }

  lemma {:induction false} TrimEndShortens(s: string)
    ensures |TrimEnd(s)| <= |s|
  {
    if s != "" && IsSpace(s[|s| - 1]) {
      TrimEndShortens(s[..|s| - 1]);
    }
  }

  lemma {:induction false} TrimStartShortens(s: string)
    ensures |TrimStart(s)| <= |s|
  {
    if s != "" && IsSpace(s[0]) {
      TrimStartShortens(s[1..]);
    }
  }

  lemma TrimShortens(s: string)
    ensures |Trim(s)| <= |s|
  {
    TrimStartShortens(s);
    TrimEndShortens(TrimStart(s));
  }

  lemma TrimTwice(s: string)
    ensures Trim(Trim(s)) == Trim(s)
  {
    TrimIsTrimmed(s);
    TrimOfTrimmed(Trim(s));
  }

  lemma CleanedKeeps(visits: seq<Visit>, entry: Entry)
    requires TellsLatest(visits, entry)
    ensures Cleaned(entry) == entry
  {
    var visit := visits[LatestVisit(visits, entry.href)];
    TrimTwice(visit.href.value);
    LabelSettles(visit.caption, entry.href);
  }

  /** The entry that a visit makes, once read. */
  lemma VisitTells(visit: Visit)
    requires visit.Tracked() && visit.Time().Some?
    ensures var href := Trim(visit.href.value);
            var entry := Cleaned(Entry(href, LabelFor(visit.caption, href), visit.Time()));
            entry.href == href && Tells(entry, visit)
  {
    TrimTwice(visit.href.value);
    LabelSettles(visit.caption, Trim(visit.href.value));
  }

  /** The dated items that a history is read from all tell the latest visit once cleaned. */
  lemma ParsedTell(visits: seq<Visit>, items: seq<Entry>)
    requires forall item <- items :: item.visitedAt.Some? ==> TellsLatest(visits, Cleaned(item))
    ensures AllTellLatest(visits, Parse(items))
  {
    ParsedIsHistory(items);
    hide TellsLatest, Parse;
    forall entry <- Parse(items) ensures TellsLatest(visits, entry) {
      assert ComesFrom(items, entry);
      var item :| item in items && item.visitedAt.Some? && entry == Cleaned(item);
    }
  }

  lemma ParsedAgainTell(visits: seq<Visit>, entries: seq<Entry>)
    requires AllTellLatest(visits, entries)
    ensures AllTellLatest(visits, Parse(entries))
  {
    forall entry <- entries ensures TellsLatest(visits, Cleaned(entry)) {
      CleanedKeeps(visits, entry);
    }
    ParsedTell(visits, entries);
  }

  lemma StillTells(visits: seq<Visit>, visit: Visit, entry: Entry)
    requires TellsLatest(visits, entry) && !VisitsPage(visit, entry.href)
    ensures TellsLatest(visits + [visit], entry)
  {
    LatestVisitAfter(visits, visit, entry.href);
  }

  lemma AppliedTells(existing: seq<Entry>, visits: seq<Visit>, visit: Visit)
    requires AllTellLatest(visits, existing) && visit.Tracked()
    ensures forall item <- ApplyVisit(existing, visit) ::
              item.visitedAt.Some? ==> TellsLatest(visits + [visit], Cleaned(item))
  {
    var href := Trim(visit.href.value);
    var head := Entry(href, LabelFor(visit.caption, href), visit.Time());
    WithoutExcludes(existing, href);
    LatestVisitAfter(visits, visit, href);
    if head.visitedAt.Some? {
      VisitTells(visit);
      assert (visits + [visit])[|visits|] == visit;
      assert TellsLatest(visits + [visit], Cleaned(head));
    }
    hide TellsLatest, Cleaned, LabelFor;
    forall item <- ApplyVisit(existing, visit) | item.visitedAt.Some?
      ensures TellsLatest(visits + [visit], Cleaned(item))
    {
      if item != head {
        assert item in Without(existing, href);
        StillTells(visits, visit, item);
        CleanedKeeps(visits, item);
        CleanedKeeps(visits + [visit], item);
      }
    }
  }

  lemma RecordedTells(stored: Option<Stored>, visits: seq<Visit>, visit: Visit)
    requires AllTellLatest(visits, ReadStored(stored))
    ensures AllTellLatest(visits + [visit], ReadStored(Recorded(stored, visit)))
  {
    var existing := ReadStored(stored);
    if visit.Tracked() {
      AppliedTells(existing, visits, visit);
      var applied := ApplyVisit(existing, visit);
      hide TellsLatest, ApplyVisit, Parse;
      ParsedTell(visits + [visit], applied);
      ParsedAgainTell(visits + [visit], Parse(applied));
    } else {
      forall entry <- existing ensures TellsLatest(visits + [visit], entry) {
        StillTells(visits, visit, entry);
      }
      hide TellsLatest, Parse;
      if visit.href.Some? {
        ParsedAgainTell(visits + [visit], existing);
        ParsedAgainTell(visits + [visit], Parse(existing));
        ParsedAgainTell(visits + [visit], Parse(Parse(existing)));
      }
    }
  }

  /** Whatever is visited and however the visits are dated, an entry of the history tells the latest visit of its
      page, which had a readable time. */
  lemma {:induction false} EntriesTellLatestVisits(visits: seq<Visit>)
    ensures AllTellLatest(visits, ReadStored(RecordAll(None, visits)))
  {
    if visits != [] {
      var front, visit := visits[..|visits| - 1], visits[|visits| - 1];
      assert visits == front + [visit];
      EntriesTellLatestVisits(front);
      RecordedTells(RecordAll(None, front), front, visit);
    }
  }

  // ---------------------------------------------------------------------------------------------------
  // Visits reported in order
  // ---------------------------------------------------------------------------------------------------

  /** The visit is dated `ms`: by the time given with it, or by the clock. */
  predicate IsDated(visit: Visit, ms: int) {
    visit.visitedAt == Given(ms) || (visit.visitedAt.Absent? && visit.now == ms)
  }

  /** The visits that name a page are dated, in non-decreasing order. */
  ghost predicate DatedInOrder(visits: seq<Visit>, dates: seq<int>) {
    && |dates| == |visits|
    && (forall i :: 0 <= i < |visits| && visits[i].href.Some? && Trim(visits[i].href.value) != "" ==>
          IsDated(visits[i], dates[i]))
    && (forall i, j :: 0 <= i < j < |dates| ==> dates[i] <= dates[j])
  }

  /** The history shows the pages by decreasing latest visit: all of them, or the fifty latest. */
  ghost predicate ShowsLatestPages(visits: seq<Visit>, entries: seq<Entry>) {
    && |entries| <= 50
    && (forall i, j :: 0 <= i < j < |entries| ==>
          LatestVisit(visits, entries[i].href) > LatestVisit(visits, entries[j].href))
    && (forall href :: LatestVisit(visits, href) >= 0 ==>
          HasHref(entries, href)
          || (|entries| == 50 && LatestVisit(visits, href) < LatestVisit(visits, entries[49].href)))
  }

  lemma MarksShowLatestPages(visits: seq<Visit>, entries: seq<Entry>)
    requires Marks(entries) == Slice(MostRecent(visits), 50)
    ensures ShowsLatestPages(visits, entries)
  {
    var marks := MostRecent(visits);
    MostRecentIsByLatestVisit(visits);
    hide MostRecent, LatestVisit;
    assert forall i :: 0 <= i < |entries| ==> Marks(entries)[i] == marks[i] && entries[i].href == marks[i].href;
    forall href | LatestVisit(visits, href) >= 0
      ensures HasHref(entries, href)
              || (|entries| == 50 && LatestVisit(visits, href) < LatestVisit(visits, entries[49].href))
    {
      var mark :| mark in marks && mark.href == href;
      var i :| 0 <= i < |marks| && marks[i] == mark;
      if i < |entries| {
        assert entries[i] in entries;
      } else {
        assert LatestVisit(visits, marks[49].href) > LatestVisit(visits, marks[i].href);
      }
    }
  }

  /** When the visits are dated in order, the history shows the pages by decreasing latest visit, every page or the
      fifty latest, each with the date and label of its latest visit. */
  lemma HistoryShowsLatestPages(visits: seq<Visit>, dates: seq<int>)
    requires DatedInOrder(visits, dates)
    ensures var entries := ReadStored(RecordAll(None, visits));
            ShowsLatestPages(visits, entries) && AllTellLatest(visits, entries)
  {
    HistoryIsMostRecent(visits);
    EntriesTellLatestVisits(visits);
    MarksShowLatestPages(visits, ReadStored(RecordAll(None, visits)));
  }

  /** As the application reports them, without a time of their own and by a clock that does not run backwards, all
      visits are kept: each page shown has the clock's time at its latest visit. */
  lemma ReportedVisitsAreKept(visits: seq<Visit>)
    requires forall visit <- visits :: visit.visitedAt.Absent?
    requires forall i, j :: 0 <= i < j < |visits| ==> visits[i].now <= visits[j].now
    ensures var entries := ReadStored(RecordAll(None, visits));
            && ShowsLatestPages(visits, entries)
            && forall entry <- entries ::
                 var k := LatestVisit(visits, entry.href);
                 k >= 0 && entry.visitedAt == Some(visits[k].now)
  {
    var dates := seq(|visits|, i requires 0 <= i < |visits| => visits[i].now);
    forall i | 0 <= i < |visits| ensures IsDated(visits[i], dates[i]) {
      assert visits[i] in visits;
    }
    HistoryShowsLatestPages(visits, dates);
    forall entry <- ReadStored(RecordAll(None, visits))
      ensures var k := LatestVisit(visits, entry.href); k >= 0 && entry.visitedAt == Some(visits[k].now)
    {
      assert TellsLatest(visits, entry);
      assert visits[LatestVisit(visits, entry.href)] in visits;
    }
  }

  /** LatestVisit in the terms of a call: the last of the visits whose trimmed page is `href`. */
  lemma LatestVisitIsLast(visits: seq<Visit>, href: string, k: nat)
    requires href != "" && k < |visits|
    ensures LatestVisit(visits, href) == k
            <==> visits[k].href.Some? && Trim(visits[k].href.value) == href
                 && forall j :: k < j < |visits| && visits[j].href.Some? ==> Trim(visits[j].href.value) != href
  {
    hide Trim;
    assert forall j :: 0 <= j < |visits| ==>
             (VisitsPage(visits[j], href) <==> visits[j].href.Some? && Trim(visits[j].href.value) == href);
  }

  // ---------------------------------------------------------------------------------------------------
  // One visit, whatever is stored
  // ---------------------------------------------------------------------------------------------------

  /** If the entry is of the visit's page, it tells the visit once cleaned. */
  predicate TellsIfOf(visit: Visit, entry: Entry)
    requires visit.href.Some?
  {
    Trim(entry.href) == Trim(visit.href.value) ==> Tells(Cleaned(entry), visit)
  }

  lemma CleanedTwice(visit: Visit, item: Entry)
    requires visit.Tracked() && TellsIfOf(visit, item)
    ensures TellsIfOf(visit, Cleaned(item))
  {
    TrimTwice(item.href);
    if Trim(item.href) == Trim(visit.href.value) {
      LabelSettles(visit.caption, Trim(item.href));
    }
  }

  lemma ParsedTellIfOf(visit: Visit, items: seq<Entry>)
    requires visit.Tracked() && forall item <- items :: item.visitedAt.Some? ==> TellsIfOf(visit, item)
    ensures forall entry <- Parse(items) ::
              TellsIfOf(visit, entry) && (entry.href == Trim(visit.href.value) ==> Tells(entry, visit))
  {
    ParsedIsHistory(items);
    hide Parse, Tells;
    forall entry <- Parse(items)
      ensures TellsIfOf(visit, entry) && (entry.href == Trim(visit.href.value) ==> Tells(entry, visit))
    {
      assert ComesFrom(items, entry);
      var item :| item in items && item.visitedAt.Some? && entry == Cleaned(item);
      CleanedTwice(visit, item);
    }
  }

  lemma AppliedTellsIfOf(stored: Option<Stored>, visit: Visit)
    requires visit.Tracked()
    ensures forall item <- ApplyVisit(ReadStored(stored), visit) ::
              item.visitedAt.Some? ==> TellsIfOf(visit, item)
  {
    var existing, href := ReadStored(stored), Trim(visit.href.value);
    var head := Entry(href, LabelFor(visit.caption, href), visit.Time());
    WithoutExcludes(existing, href);
    if head.visitedAt.Some? {
      VisitTells(visit);
    }
    forall item <- ApplyVisit(existing, visit) | item.visitedAt.Some? ensures TellsIfOf(visit, item) {
      if item != head {
        assert item in Without(existing, href) && item in existing;
        ParsedIsHistory(stored.value.items);
        assert ComesFrom(stored.value.items, item);
        TrimOfTrimmed(item.href);
      }
    }
  }

  /** Whatever was stored before, a visit that does not come with an unreadable time is in the history, which tells its
      page by this visit alone: its label, and the time given or else the clock. */
  lemma RecordedVisitTells(stored: Option<Stored>, visit: Visit)
    requires visit.href.Some? && Trim(visit.href.value) != ""
    ensures var entries := ReadStored(Recorded(stored, visit));
            && (HasHref(entries, Trim(visit.href.value)) <==> !visit.visitedAt.Unreadable?)
            && forall entry <- entries :: entry.href == Trim(visit.href.value) ==> Tells(entry, visit)
  {
    VisitIsRecordedExactly(stored, visit);
    AppliedTellsIfOf(stored, visit);
    var applied := ApplyVisit(ReadStored(stored), visit);
    ParsedTellIfOf(visit, applied);
    hide Parse, ApplyVisit, TellsIfOf, Tells;
    ParsedTellIfOf(visit, Parse(applied));
  }
}
