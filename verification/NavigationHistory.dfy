// The navigation history of packages/shared/src/navigation-history.ts and the stored state around it in
// apps/frontend/lib/navigation-history.ts.
//
// A time is the number of milliseconds that Date.parse gives; None stands for a missing or unreadable one.
// JSON encoding and decoding of the stored list are taken to be inverse to each other.
module NavigationHistory {
  import opened Wrappers
  import opened JsText

  const MAX_HISTORY := 50
  const MAX_LABEL := 120

  datatype Entry = Entry(href: string, caption: string, visitedAt: Option<int>)

  function Slice<T>(s: seq<T>, n: nat): seq<T> {
    if |s| <= n then s else s[..n]
  }

  // ---------------------------------------------------------------------------------------------------
  // Parsing
  // ---------------------------------------------------------------------------------------------------

  function LabelFor(caption: string, href: string): string {
    Slice(if Trim(caption) != "" then Trim(caption) else href, MAX_LABEL)
  }

  function Cleaned(item: Entry): Entry {
    var href := Trim(item.href);
    Entry(href, LabelFor(item.caption, href), item.visitedAt)
  }

  predicate HasHref(entries: seq<Entry>, href: string) {
    exists entry <- entries :: entry.href == href
  }

  predicate Accepts(result: seq<Entry>, item: Entry) {
    Trim(item.href) != "" && !HasHref(result, Trim(item.href)) && item.visitedAt.Some?
  }

  /** The loop over the raw items: the first of several equal hrefs is kept, up to fifty entries. */
  function Collect(items: seq<Entry>, result: seq<Entry>): seq<Entry>
    decreases |items|
  {
    if items == [] then result
    else if !Accepts(result, items[0]) then Collect(items[1..], result)
    else if |result| + 1 >= MAX_HISTORY then result + [Cleaned(items[0])]
    else Collect(items[1..], result + [Cleaned(items[0])])
  }

  function TimeOf(entry: Entry): int {
    if entry.visitedAt.Some? then entry.visitedAt.value else 0
  }

  function Insert(entry: Entry, sorted: seq<Entry>): seq<Entry> {
    if sorted == [] || TimeOf(entry) >= TimeOf(sorted[0]) then [entry] + sorted
    else [sorted[0]] + Insert(entry, sorted[1..])
  }

  /** The stable sort by decreasing time. */
  function SortByTime(entries: seq<Entry>): seq<Entry> {
    if entries == [] then [] else Insert(entries[0], SortByTime(entries[1..]))
  }

  function Parse(items: seq<Entry>): seq<Entry> {
    SortByTime(Collect(items, []))
  }

  method ParseNavigationHistory(items: seq<Entry>) returns (result: seq<Entry>)
    ensures result == Parse(items)
  {
    var seen: set<string> := {};
    result := [];
    var i := 0;
    while i < |items|
      invariant 0 <= i <= |items| && |result| < MAX_HISTORY
      invariant forall href :: href in seen <==> HasHref(result, href)
      invariant Collect(items[i..], result) == Collect(items, [])
    {
      var item := items[i];
      assert items[i..][1..] == items[i + 1..];
      var href := Trim(item.href);
      i := i + 1;
      if href == "" || href in seen || item.visitedAt.None? {
        continue;
      }
      seen := seen + {href};
      result := result + [Entry(href, LabelFor(item.caption, href), item.visitedAt)];
      if |result| >= MAX_HISTORY {
        break;
      }
    }
    assert result == Collect(items, []);
    result := SortByTime(result);
  }

  // ---------------------------------------------------------------------------------------------------
  // Recording a visit
  // ---------------------------------------------------------------------------------------------------

  /** `visitedAt` is absent when blank; a given text that is not a date is Unreadable. */
  datatype VisitTime = Absent | Given(ms: int) | Unreadable

  /** A call of recordNavigationVisit: `href` is None when it normalizes to null or is ignored, and `now` is what
      the clock shows. */
  datatype Visit = Visit(href: Option<string>, caption: string, visitedAt: VisitTime, now: int)
  {
    function Time(): Option<int> {
      match visitedAt
      case Absent => Some(now)
      case Given(ms) => Some(ms)
      case Unreadable => None
    }

    predicate Tracked() {
      href.Some? && Trim(href.value) != ""
    }
  }

  function Without(entries: seq<Entry>, href: string): seq<Entry> {
    if entries == [] then []
    else if entries[0].href == href then Without(entries[1..], href)
    else [entries[0]] + Without(entries[1..], href)
  }

  function ApplyVisit(existing: seq<Entry>, visit: Visit): seq<Entry>
    requires visit.href.Some?
  {
    var href := Trim(visit.href.value);
    if href == "" then Parse(existing)
    else
      Slice([Entry(href, LabelFor(visit.caption, href), visit.Time())] + Without(existing, href), MAX_HISTORY)
  }

  // ---------------------------------------------------------------------------------------------------
  // The stored state
  // ---------------------------------------------------------------------------------------------------

  /** The stored text: a JSON array, or something else. */
  datatype Stored = Corrupt | Items(items: seq<Entry>)

  function ReadStored(stored: Option<Stored>): seq<Entry> {
    if stored.Some? && stored.value.Items? then Parse(stored.value.items) else []
  }

  function Recorded(stored: Option<Stored>, visit: Visit): Option<Stored> {
    if visit.href.None? then stored
    else Some(Items(Parse(ApplyVisit(ReadStored(stored), visit))))
  }

  function RecordAll(stored: Option<Stored>, visits: seq<Visit>): Option<Stored> {
    if visits == [] then stored
    else Recorded(RecordAll(stored, visits[..|visits| - 1]), visits[|visits| - 1])
  }

  function StorageKey(userId: string, organizationId: string): string {
    "planwise:nav-history:" + Trim(userId) + ":" + Trim(organizationId)
  }

  /** window.localStorage; without a window `available` is false. */
  class HistoryStore {
    const available: bool
    var storage: map<string, Stored>

    constructor (available: bool)
      ensures storage == map[] && this.available == available
    {
      this.available := available;
      storage := map[];
    }

    predicate Usable(userId: string, organizationId: string) {
      available && Trim(userId) != "" && Trim(organizationId) != ""
    }

    function StoredAt(key: string): Option<Stored>
      reads this
    {
      if key in storage then Some(storage[key]) else None
    }

    function ReadAt(userId: string, organizationId: string): seq<Entry>
      reads this
    {
      if Usable(userId, organizationId) then ReadStored(StoredAt(StorageKey(userId, organizationId))) else []
    }

    method Read(userId: string, organizationId: string) returns (entries: seq<Entry>)
      ensures entries == ReadAt(userId, organizationId)
    {
      if !Usable(userId, organizationId) {
        return [];
      }
      var key := StorageKey(userId, organizationId);
      if key !in storage || storage[key].Corrupt? {
        return [];
      }
      entries := ParseNavigationHistory(storage[key].items);
    }

    method Write(userId: string, organizationId: string, entries: seq<Entry>)
      modifies this`storage
      ensures storage == if Usable(userId, organizationId)
                         then old(storage)[StorageKey(userId, organizationId) := Items(Parse(entries))]
                         else old(storage)
    {
      if !Usable(userId, organizationId) {
        return;
      }
      var parsed := ParseNavigationHistory(entries);
      storage := storage[StorageKey(userId, organizationId) := Items(parsed)];
    }

    method Record(userId: string, organizationId: string, visit: Visit) returns (next: seq<Entry>)
      modifies this`storage
      ensures next == if visit.href.None? then old(ReadAt(userId, organizationId))
                      else ApplyVisit(old(ReadAt(userId, organizationId)), visit)
      ensures Usable(userId, organizationId) ==>
                StoredAt(StorageKey(userId, organizationId))
                == Recorded(old(StoredAt(StorageKey(userId, organizationId))), visit)
      ensures !Usable(userId, organizationId) ==> storage == old(storage)
      ensures forall key :: key != StorageKey(userId, organizationId) ==> StoredAt(key) == old(StoredAt(key))
    {
      next := Read(userId, organizationId);
      if visit.href.None? {
        return;
      }
      next := ApplyVisit(next, visit);
      Write(userId, organizationId, next);
    }
  }
}
