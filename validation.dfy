/** validate: resolve default_calendar against the parsed calendars. The
    sentinel True stands for the first calendar; any other value has to be
    the name of some calendar. */
module Validation {
  import opened Values
  import opened RawConfig
  import opened Schema
  import opened Sections
  import opened SectionKinds
  import opened Scanning
  import opened Assembler

  /** The value of default_calendar that stands for the first calendar. */
  const Sentinel := Bool(true)

  /** What validate reads without checking: a default group holding
      default_calendar, and a non-empty list of calendars that all have a
      name. */
  predicate Ready(items: Items) {
    && items.default.Some? && "default_calendar" in items.default.value
    && items.calendars != []
    && forall c :: c in items.calendars ==> "name" in c
  }

  function DefaultCalendar(items: Items): Value
    requires Ready(items)
  {
    items.default.value["default_calendar"]
  }

  /** `[cal.name for cal in conf.calendars]`. */
  function CalendarNames(cals: seq<Namespace>): (r: seq<Value>)
    requires forall c :: c in cals ==> "name" in c
    ensures |r| == |cals| && forall i :: 0 <= i < |cals| ==> r[i] == cals[i]["name"]
  {
    if cals == [] then [] else [cals[0]["name"]] + CalendarNames(cals[1..])
  }

  /** The configuration with default_calendar replaced by `name`. */
  function WithDefaultCalendar(items: Items, name: Value): Items
    requires items.default.Some?
  {
    items.(default := Some(items.default.value["default_calendar" := name]))
  }

  /** validate on values: the configuration it hands back (None when it
      rejects the default calendar) and what it logs. An accepted
      configuration names one of its calendars as the default one. */
  function Validated(items: Items): (r: Logged<Option<Items>>)
    requires Ready(items)
    ensures r.value.Some? <==> DefaultCalendar(items) == Sentinel || DefaultCalendar(items) in CalendarNames(items.calendars)
    ensures r.value.None? ==> r.log == [InvalidCalendar(DefaultCalendar(items))]
    ensures r.value.Some? ==>
      && r.log == []
      && Ready(r.value.value)
      && DefaultCalendar(r.value.value) in CalendarNames(r.value.value.calendars)
  {
    var chosen := DefaultCalendar(items);
    if chosen == Sentinel then
      var resolved := WithDefaultCalendar(items, items.calendars[0]["name"]);
      assert CalendarNames(resolved.calendars)[0] == items.calendars[0]["name"];
      Logged(Some(resolved), [])
    else if chosen in CalendarNames(items.calendars) then Logged(Some(items), [])
    else Logged(None, [InvalidCalendar(chosen)])
  }

  /** validate changes nothing but default_calendar, and that only when it
      holds the sentinel: it becomes the first calendar's name. */
  lemma ValidatedChangesOnlyDefault(items: Items)
    requires Ready(items)
    ensures var r := Validated(items).value;
      r.Some? ==>
        && r.value.locale == items.locale && r.value.sqlite == items.sqlite
        && r.value.calendars == items.calendars
        && r.value.default.value.Keys == items.default.value.Keys
        && (forall k :: k in items.default.value && k != "default_calendar" ==>
              r.value.default.value[k] == items.default.value[k])
        && DefaultCalendar(r.value) ==
             if DefaultCalendar(items) == Sentinel then items.calendars[0]["name"] else DefaultCalendar(items)
  {
  }

  /** A second validate accepts what the first one returned and changes
      nothing further. */
  lemma {:induction false} ValidatedIdempotent(items: Items)
    requires Ready(items) && Validated(items).value.Some?
    ensures Validated(Validated(items).value.value) == Logged(Validated(items).value, [])
  {
    var chosen := DefaultCalendar(items);
    if chosen == Sentinel {
      var first := items.calendars[0]["name"];
      var once := WithDefaultCalendar(items, first);
      assert Validated(items).value.value == once;
      if first == Sentinel {
        assert once.default.value["default_calendar" := Sentinel] == once.default.value;
      } else {
        assert CalendarNames(once.calendars)[0] == first;
      }
    }
  }

  /** The values a successful [default] section contributes hold
      default_calendar: the raw string, or the sentinel. */
  lemma DefaultSucceeded(n: string, opts: OptionMap, host: Host)
    requires Succeeds(Default, n, opts, Registered(host))
    ensures var parsed := ParsedOf(n, opts, Registered(host));
      && "default_calendar" in parsed
      && (parsed["default_calendar"] == Sentinel || parsed["default_calendar"].Str?)
  {
    DefaultSectionValues(n, opts, host);
  }

  /** The values a successful calendar section contributes hold its name,
      taken from the section title. */
  lemma CalendarSucceeded(n: string, opts: OptionMap, host: Host)
    requires Succeeds(Calendar, n, opts, Registered(host))
    ensures var parsed := ParsedOf(n, opts, Registered(host));
      NameMatches(Calendar, n) && "name" in parsed && parsed["name"] == Str(CalendarName(n))
  {
    CalendarNeverShadowed(n);
    CalendarSectionKeys(n, opts, host);
  }

  /** Every configuration parse_config returns is one validate can read, its
      calendars are named by strings, and default_calendar is the sentinel or
      a string. */
  lemma ConfigOfReady(read: ReadResult, host: Host)
    requires ReadValid(read)
    ensures var r := ConfigOf(read, host);
      r.Done? && r.value.value.Some? ==>
        && Ready(r.value.value.value)
        && (forall cal: Namespace :: cal in r.value.value.value.calendars ==> "name" in cal && cal["name"].Str?)
        && (DefaultCalendar(r.value.value.value) == Sentinel || DefaultCalendar(r.value.value.value).Str?)
  {
    var r := ConfigOf(read, host);
    if r.Done? && r.value.value.Some? {
      var items := r.value.value.value;
      var names, options, c := read.names, read.options, Registered(host);
      ConfigOfSucceeds(read, host);
      var i := LastSuccess(Default, names, options, c);
      ConfigOfSlot(read, host, Default, i);
      DefaultSucceeded(names[i], options[names[i]], host);
      ConfigOfCalendars(read, host);
      CalendarsOfMembers(names, options, c);
      forall cal: Namespace | cal in items.calendars ensures "name" in cal && cal["name"].Str? {
        var n :| n in names && Succeeds(Calendar, n, options[n], c) && cal == ParsedOf(n, options[n], c);
        CalendarSucceeded(n, options[n], host);
      }
    }
  }

  /** The configuration object validate works on: it mutates its default
      group in place. */
  class Configuration {
    var items: Items

    constructor (items: Items)
      ensures this.items == items
    {
      this.items := items;
    }

    /** validate: replaces the sentinel by the first calendar's name, or
        rejects a default_calendar that names no calendar; it returns the
        configuration itself or null. */
    method Validate() returns (r: Configuration?, log: seq<Message>)
      requires Ready(items)
      modifies this
      ensures var v := Validated(old(items));
        && (r == if v.value.Some? then this else null)
        && log == v.log
        && items == if v.value.Some? then v.value.value else old(items)
    {
      var chosen := items.default.value["default_calendar"];
      if chosen == Sentinel {
        items := items.(default := Some(items.default.value["default_calendar" := items.calendars[0]["name"]]));
        return this, [];
      }
      if chosen !in CalendarNames(items.calendars) {
        return null, [InvalidCalendar(chosen)];
      }
      return this, [];
    }
  }
}
