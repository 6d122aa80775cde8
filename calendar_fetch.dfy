/**
 * The `liturgy:fetch-calendar` command: it fetches a year of the LitCal
 * calendar without the cache, groups the events by their "Y-M-D" date key,
 * picks the highest-graded event of each day and writes one liturgical-day
 * record per date.
 */
module Calendar {
  import opened Wrappers
  import opened Text
  import opened Seqs
  import LitUtils

  /** One element of the "litcal" list of the LitCal answer. */
  datatype Event = Event(year: int, month: int, day: int, grade: int, name: string,
                         gradeLcl: string, season: Option<string>)

  /** The decoded JSON object: its set of top-level keys and the value
      of "litcal". */
  datatype CalendarJson = CalendarJson(fields: set<string>, litcal: seq<Event>)

  /** One `LiturgicalDay` row as handed to the session. */
  datatype LiturgicalDay = LiturgicalDay(date: string, region: string, year: int, name: string,
                                         grade: int, gradeName: string, season: Option<string>,
                                         fullData: seq<Event>)

  datatype FetchOutcome =
    | FetchFailed(err: Option<LitUtils.FetchError>)  // error, no data, or no "litcal" key
    | NoEvents                                      // "litcal" is empty
    | Unhandled                                     // a text body mentioning "litcal": `.get` raises
    | Saved(days: seq<LiturgicalDay>, count: nat)

  /** `f"{year}-{month}-{day}"` */
  function DateKey(e: Event): string {
    IntToString(e.year) + "-" + IntToString(e.month) + "-" + IntToString(e.day)
  }

  /** `diocese or nation or 'GR'`: the diocese takes precedence here. */
  function RegionKey(nation: Option<string>, diocese: Option<string>): (r: string)
    ensures StrTruthy(diocese) ==> r == diocese.value
    ensures !StrTruthy(diocese) && StrTruthy(nation) ==> r == nation.value
    ensures !StrTruthy(diocese) && !StrTruthy(nation) ==> r == "GR"
  {
    if StrTruthy(diocese) then diocese.value
    else if StrTruthy(nation) then nation.value
    else "GR"
  }

  /** With both a nation and a diocese, the region key names the diocese
      while the URL asks for the nation's calendar. */
  lemma RegionOppositeToUrl(nation: Option<string>, diocese: Option<string>, year: Option<int>)
    requires StrTruthy(nation) && StrTruthy(diocese)
    ensures RegionKey(nation, diocese) == diocese.value
    ensures StartsWith(LitUtils.LitcalUrl(nation, diocese, year), LitUtils.LitcalBase + "/nation/" + nation.value)
  {
  }

  /** The date keys of `events`, each once, in order of first appearance
      (the iteration order of the grouping dictionary). */
  function DistinctKeys(events: seq<Event>): seq<string> {
    Distinct(events, DateKey)
  }

  /** The events of `events` whose date key is `k`, in input order. */
  function EventsOn(events: seq<Event>, k: string): seq<Event> {
    Group(events, DateKey, k)
  }

  /** The date keys are distinct and are exactly the keys of the events. */
  lemma DistinctKeysSpec(events: seq<Event>)
    ensures NoDup(DistinctKeys(events))
    ensures forall k :: k in DistinctKeys(events) <==> exists i :: 0 <= i < |events| && DateKey(events[i]) == k
  {
    DistinctSpec(events, DateKey);
    forall k ensures k in DistinctKeys(events) <==> exists i :: 0 <= i < |events| && DateKey(events[i]) == k {
      assert HasImage(events, DateKey, k) <==> exists i :: 0 <= i < |events| && DateKey(events[i]) == k;
    }
  }

  /** Every event lands in exactly one group: the group of its own date
      key holds it as often as the input does, every other group never. */
  lemma EventInExactlyOneGroup(events: seq<Event>, e: Event, k: string)
    ensures multiset(EventsOn(events, k))[e] == if DateKey(e) == k then multiset(events)[e] else 0
  {
    GroupCount(events, DateKey, k, e);
  }

  /** Within a group the events keep their input order, and all share the
      group's date key. */
  lemma GroupKeepsOrder(events: seq<Event>, k: string)
    ensures Subsequence(EventsOn(events, k), events)
    ensures forall e :: e in EventsOn(events, k) ==> DateKey(e) == k
  {
    GroupSubsequence(events, DateKey, k);
    forall e | e in EventsOn(events, k) ensures DateKey(e) == k {
      GroupMember(events, DateKey, k, e);
    }
  }

  /** The group of a key that occurs is not empty. */
  lemma GroupNonEmpty(events: seq<Event>, k: string)
    requires k in DistinctKeys(events)
    ensures |EventsOn(events, k)| > 0
  {
    DistinctSpec(events, DateKey);
    assert HasImage(events, DateKey, k);
    var i :| 0 <= i < |events| && DateKey(events[i]) == k;
    GroupMember(events, DateKey, k, events[i]);
  }

  /** `groups` and `keys` are the dictionary and its insertion order after
      grouping `prefix`. */
  ghost predicate GroupedAs(keys: seq<string>, groups: map<string, seq<Event>>, prefix: seq<Event>) {
    && keys == Distinct(prefix, DateKey)
    && (forall k :: k in groups <==> k in keys)
    && (forall k :: k in groups ==> groups[k] == Group(prefix, DateKey, k))
    && (forall k :: k !in groups ==> Group(prefix, DateKey, k) == [])
  }

  /** One pass of the first loop: start the list for a new key, then append. */
  function AddEvent(groups: map<string, seq<Event>>, event: Event): map<string, seq<Event>> {
    var key := DateKey(event);
    var g := if key in groups then groups else groups[key := []];
    g[key := g[key] + [event]]
  }

  function AddKey(keys: seq<string>, groups: map<string, seq<Event>>, event: Event): seq<string> {
    if DateKey(event) in groups then keys else keys + [DateKey(event)]
  }

  lemma GroupedStep(keys: seq<string>, groups: map<string, seq<Event>>, events: seq<Event>, i: nat)
    requires i < |events| && GroupedAs(keys, groups, events[..i])
    ensures GroupedAs(AddKey(keys, groups, events[i]), AddEvent(groups, events[i]), events[..i + 1])
  {
    assert events[..i + 1] == events[..i] + [events[i]];
    assert events[..i + 1][..i] == events[..i];
    GroupSnoc(events[..i], DateKey, events[i]);
  }

  /** Once every event is grouped, the dictionary is the one specified. */
  lemma GroupedAll(keys: seq<string>, groups: map<string, seq<Event>>, events: seq<Event>)
    requires GroupedAs(keys, groups, events[..|events|])
    ensures keys == DistinctKeys(events)
    ensures forall k :: k in groups <==> k in keys
    ensures forall k :: k in groups ==> groups[k] == EventsOn(events, k)
  {
    assert events[..|events|] == events;
  }

  /** The body of the first loop. */
  method AddToGroup(keys: seq<string>, groups: map<string, seq<Event>>, event: Event)
    returns (keys': seq<string>, groups': map<string, seq<Event>>)
    ensures keys' == AddKey(keys, groups, event) && groups' == AddEvent(groups, event)
  {
    var key := DateKey(event);
    keys', groups' := keys, groups;
    if key !in groups' {
      groups' := groups'[key := []];
      keys' := keys' + [key];
    }
    groups' := groups'[key := groups'[key] + [event]];
  }

  /** The first loop: a dictionary from date key to that day's events,
      filled by appends; `keys` is its insertion order. */
  method GroupByDate(events: seq<Event>) returns (keys: seq<string>, groups: map<string, seq<Event>>)
    ensures keys == DistinctKeys(events)
    ensures forall k :: k in groups <==> k in keys
    ensures forall k :: k in groups ==> groups[k] == EventsOn(events, k)
  {
    keys, groups := [], map[];
    var i := 0;
    while i < |events|
      invariant 0 <= i <= |events|
      invariant GroupedAs(keys, groups, events[..i])
    {
      GroupedStep(keys, groups, events, i);
      keys, groups := AddToGroup(keys, groups, events[i]);
      i := i + 1;
    }
    GroupedAll(keys, groups, events);
  }

  /** `daily[j]` is what `max(daily, key=grade)` returns: a greatest grade,
      and the first element with that grade. */
  ghost predicate IsFirstMax(daily: seq<Event>, j: int) {
    && 0 <= j < |daily|
    && (forall m :: 0 <= m < |daily| ==> daily[m].grade <= daily[j].grade)
    && (forall m :: 0 <= m < j ==> daily[m].grade < daily[j].grade)
  }

  /** `max(daily_events, key=lambda x: x['grade'])` */
  method PrimaryEvent(daily: seq<Event>) returns (idx: nat)
    requires |daily| > 0
    ensures IsFirstMax(daily, idx)
  {
    idx := 0;
    var i := 1;
    while i < |daily|
      invariant 0 <= idx < i <= |daily|
      invariant forall m :: 0 <= m < i ==> daily[m].grade <= daily[idx].grade
      invariant forall m :: 0 <= m < idx ==> daily[m].grade < daily[idx].grade
    {
      if daily[i].grade > daily[idx].grade {
        idx := i;
      }
      i := i + 1;
    }
  }

  /** The row written for one date. */
  function DayEntry(key: string, region: string, daily: seq<Event>, j: nat): LiturgicalDay
    requires j < |daily|
  {
    var p := daily[j];
    LiturgicalDay(key, region, p.year, p.name, p.grade, p.gradeLcl, p.season, daily)
  }

  /** `day` is the row for date `key`: its date is the key, its full data
      exactly that day's group, and its other fields those of the day's
      primary event. */
  ghost predicate DayRow(day: LiturgicalDay, events: seq<Event>, key: string, region: string) {
    exists j :: IsFirstMax(EventsOn(events, key), j) && day == DayEntry(key, region, EventsOn(events, key), j)
  }

  lemma DayRowOf(events: seq<Event>, key: string, region: string, j: nat)
    requires IsFirstMax(EventsOn(events, key), j)
    ensures DayRow(DayEntry(key, region, EventsOn(events, key), j), events, key, region)
  {
  }

  /** `days` holds one row per distinct date key, in key order. */
  ghost predicate RecordsDays(days: seq<LiturgicalDay>, events: seq<Event>, region: string) {
    && |days| == |DistinctKeys(events)|
    && forall i :: 0 <= i < |days| ==> DayRow(days[i], events, DistinctKeys(events)[i], region)
  }

  /** `days` holds the rows of the first `|days|` keys of `keys`. */
  ghost predicate RowsFor(days: seq<LiturgicalDay>, events: seq<Event>, keys: seq<string>, region: string) {
    && |days| <= |keys|
    && forall n :: 0 <= n < |days| ==> DayRow(days[n], events, keys[n], region)
  }

  lemma RowsSnoc(days: seq<LiturgicalDay>, day: LiturgicalDay, events: seq<Event>, keys: seq<string>, region: string)
    requires RowsFor(days, events, keys, region) && |days| < |keys|
    requires DayRow(day, events, keys[|days|], region)
    ensures RowsFor(days + [day], events, keys, region)
  {
    assert forall n :: 0 <= n < |days| ==> (days + [day])[n] == days[n];
  }

  /** The second loop: one row per date key, counting the rows. */
  method SaveDays(events: seq<Event>, region: string) returns (days: seq<LiturgicalDay>, newEntries: nat)
    ensures RecordsDays(days, events, region)
    ensures newEntries == |days| == |DistinctKeys(events)|
  {
    var keys, groups := GroupByDate(events);
    days, newEntries := [], 0;
    var i := 0;
    while i < |keys|
      invariant 0 <= i <= |keys|
      invariant newEntries == |days| == i
      invariant RowsFor(days, events, keys, region)
    {
      var dateKey := keys[i];
      var dailyEvents := groups[dateKey];
      GroupNonEmpty(events, dateKey);
      var p := PrimaryEvent(dailyEvents);
      var day := DayEntry(dateKey, region, dailyEvents, p);
      DayRowOf(events, dateKey, region, p);
      RowsSnoc(days, day, events, keys, region);
      days := days + [day];
      newEntries := newEntries + 1;
      i := i + 1;
    }
  }

  /** `urlencode` of the default headers, part of the cache key
      `fetch_calendar` builds; with its ttl of 0 the key is never read or
      written. */
  const AcceptEncoded: string := "Accept=application%2Fjson"

  /** Whether the command gives up before processing, as the source's
      `if err or not calendar_data or "litcal" not in calendar_data`. */
  predicate GivesUp(data: Option<LitUtils.Payload<CalendarJson>>, err: Option<LitUtils.FetchError>) {
    || err.Some?
    || data.None?
    || (data.value.TextBody? && (data.value.text == "" || !Contains(data.value.text, "litcal")))
    || (data.value.JsonBody? && (data.value.value.fields == {} || "litcal" !in data.value.value.fields))
  }

  /** `fetch_calendar(year, nation, diocese)`. `reply` is what the network
      answered; `now` the clock. The cache is bypassed and unchanged. */
  method FetchCalendar(cache: LitUtils.TtlCache<Option<LitUtils.Payload<CalendarJson>>>, year: int,
                       nation: Option<string>, diocese: Option<string>, now: int,
                       reply: LitUtils.Reply<CalendarJson>)
    returns (url: string, region: string, outcome: FetchOutcome)
    modifies cache
    ensures url == LitUtils.LitcalUrl(nation, diocese, Some(year))
    ensures region == RegionKey(nation, diocese)
    ensures cache.entries == old(cache.entries)
    ensures var (data, err) := LitUtils.ReplyOutcome(reply);
      if GivesUp(data, err) then outcome == FetchFailed(err)
      else if data.value.TextBody? then outcome == Unhandled
      else if data.value.value.litcal == [] then outcome == NoEvents
      else outcome.Saved?
           && RecordsDays(outcome.days, data.value.value.litcal, region)
           && outcome.count == |outcome.days| == |DistinctKeys(data.value.value.litcal)|
  {
    url := LitUtils.LitcalUrl(nation, diocese, Some(year));
    region := RegionKey(nation, diocese);
    var key := LitUtils.CacheKey(None, "GET", url, "", AcceptEncoded);
    var data, err, _ := LitUtils.SafeFetch(cache, key, Some(0), now, now, reply);
    if GivesUp(data, err) {
      return url, region, FetchFailed(err);
    }
    if data.value.TextBody? {
      return url, region, Unhandled;
    }
    var events := data.value.value.litcal;
    if events == [] {
      return url, region, NoEvents;
    }
    var days, count := SaveDays(events, region);
    outcome := Saved(days, count);
  }
}
