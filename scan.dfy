/** The loop of ConfigParser.parse_config over the raw sections, for any way
    of handing a section to a schema: the `items` it builds, the failure flag,
    what it leaves of the raw sections and what it logs. */
module Scanning {
  import opened Values
  import opened RawConfig
  import opened Schema
  import opened Sections

  /** The `items` dict of parse_config: one slot per plain group, and the list
      of calendars (absent from the dict exactly while it is empty). */
  datatype Items = Items(default: Option<Namespace>, locale: Option<Namespace>,
                         sqlite: Option<Namespace>, calendars: seq<Namespace>)

  const NoItems := Items(None, None, None, [])

  /** Storing a parsed section: a collection appends, a plain group overwrites. */
  function Store(items: Items, kind: Kind, values: Namespace): (r: Items)
  {
    match kind
    case Default => items.(default := Some(values))
    case Locale => items.(locale := Some(values))
    case SQLite => items.(sqlite := Some(values))
    case Calendar => items.(calendars := items.calendars + [values])
  }

  /** The slot of a plain group (None for the calendar list). */
  function Slot(items: Items, kind: Kind): Option<Namespace> {
    match kind
    case Default => items.default
    case Locale => items.locale
    case SQLite => items.sqlite
    case Calendar => None
  }

  /** `group in items`. */
  predicate Present(items: Items, kind: Kind) {
    if IsCollection(kind) then items.calendars != [] else Slot(items, kind).Some?
  }

  /** What happens to one raw section: no schema claims it, or the first
      matching schema parses it. */
  datatype Verdict = Unmatched | Matched(kind: Kind, result: Outcome<FieldsState>)

  /** _get_section_parser followed by Section.parse, as a function of the
      section's name and its raw options. */
  type Classifier = (string, OptionMap) -> Verdict

  /** The section's filter raised: parse_config does not return. */
  predicate Crashes(name: string, opts: OptionMap, classify: Classifier) {
    var v := classify(name, opts);
    v.Matched? && v.result.Raised?
  }

  /** The section was claimed but parse returned None. */
  predicate Fails(name: string, opts: OptionMap, classify: Classifier) {
    var v := classify(name, opts);
    v.Matched? && v.result.Done? && v.result.value.failed
  }

  /** The section was claimed by `kind` and parsed without failure. */
  predicate Succeeds(kind: Kind, name: string, opts: OptionMap, classify: Classifier) {
    var v := classify(name, opts);
    v.Matched? && v.kind == kind && v.result.Done? && !v.result.value.failed
  }

  /** The values a successful section contributes. */
  function ParsedOf(name: string, opts: OptionMap, classify: Classifier): Namespace
    requires exists kind :: Succeeds(kind, name, opts, classify)
  {
    classify(name, opts).result.value.parsed
  }

  /** What a section's parse leaves of its raw options. */
  function Consumed(v: Verdict, opts: OptionMap): OptionMap {
    if v.Matched? && v.result.Done? then v.result.value.options else opts
  }

  /** `m` is one of the messages a claimed section logged. */
  predicate SectionLogs(m: Message, v: Verdict) {
    v.Matched? && v.result.Done? && m in v.result.value.log
  }

  /** The state of the loop in parse_config. */
  datatype ScanState = ScanState(items: Items, failed: bool, options: map<string, OptionMap>, log: seq<Message>)

  /** One iteration of the loop in parse_config: it raises exactly when the
      section crashes, and otherwise keeps the earlier log and never clears
      the failure flag. */
  function ScanSection(name: string, st: ScanState, classify: Classifier): (r: Outcome<ScanState>)
    requires name in st.options
    ensures r.Raised? <==> Crashes(name, st.options[name], classify)
    ensures r.Done? ==> st.log <= r.value.log && (st.failed ==> r.value.failed)
    ensures r.Done? ==> r.value.options.Keys == st.options.Keys
    ensures r.Done? ==> forall n :: n in st.options && n != name ==> r.value.options[n] == st.options[n]
  {
    match classify(name, st.options[name])
    case Unmatched => Done(st.(log := st.log + [UnknownSection(name)]))
    case Matched(kind, Raised(o, s)) => Raised(o, s)
    case Matched(kind, Done(fs)) =>
      Done(ScanState(
        if fs.failed then st.items else Store(st.items, kind, fs.parsed),
        st.failed || fs.failed,
        st.options[name := fs.options],
        st.log + fs.log))
  }

  predicate AllIn(names: seq<string>, options: map<string, OptionMap>) {
    forall n :: n in names ==> n in options
  }

  predicate Distinct(names: seq<string>) {
    forall i, j :: 0 <= i < j < |names| ==> names[i] != names[j]
  }

  /** The whole loop of parse_config over the section names: a finished scan
      keeps the raw sections' names, the earlier log and a set failure flag. */
  function Scan(names: seq<string>, st: ScanState, classify: Classifier): (r: Outcome<ScanState>)
    requires AllIn(names, st.options)
    ensures r.Done? ==> r.value.options.Keys == st.options.Keys
    ensures r.Done? ==> st.log <= r.value.log && (st.failed ==> r.value.failed)
    decreases |names|
  {
    if names == [] then Done(st)
    else
      match ScanSection(names[0], st, classify)
      case Raised(o, s) => Raised(o, s)
      case Done(next) => Scan(names[1..], next, classify)
  }

  lemma ScanUnfold(names: seq<string>, i: nat, st: ScanState, classify: Classifier)
    requires i <= |names| && AllIn(names[i..], st.options)
    ensures i == |names| ==> Scan(names[i..], st, classify) == Done(st)
    ensures i < |names| ==>
      && names[i] in st.options
      && Scan(names[i..], st, classify) ==
           match ScanSection(names[i], st, classify)
           case Raised(o, s) => Raised(o, s)
           case Done(next) => Scan(names[i + 1..], next, classify)
  {
    if i < |names| {
      assert names[i..][0] == names[i] && names[i..][1..] == names[i + 1..];
    }
  }

  /** The calendars the successful calendar sections contribute, in file order. */
  function CalendarsOf(names: seq<string>, options: map<string, OptionMap>, classify: Classifier): seq<Namespace>
    requires AllIn(names, options)
  {
    if names == [] then []
    else
      (if Succeeds(Calendar, names[0], options[names[0]], classify)
       then [ParsedOf(names[0], options[names[0]], classify)] else [])
      + CalendarsOf(names[1..], options, classify)
  }

  lemma DistinctTail(names: seq<string>)
    requires Distinct(names) && names != []
    ensures Distinct(names[1..]) && names[0] !in names[1..]
    ensures forall n :: n in names <==> n == names[0] || n in names[1..]
  {
    forall i, j | 0 <= i < j < |names[1..]| ensures names[1..][i] != names[1..][j] {
      assert names[1..][i] == names[i + 1] && names[1..][j] == names[j + 1];
    }
    forall j | 0 <= j < |names[1..]| ensures names[1..][j] != names[0] {
      assert names[1..][j] == names[j + 1];
    }
  }

  /** The sections not yet visited still hold the options they were read with. */
  lemma LaterSections(names: seq<string>, st: ScanState, next: ScanState, classify: Classifier)
    requires AllIn(names, st.options) && Distinct(names) && names != []
    requires ScanSection(names[0], st, classify) == Done(next)
    ensures Distinct(names[1..]) && AllIn(names[1..], next.options)
    ensures forall n :: n in names[1..] ==> next.options[n] == st.options[n]
    ensures forall n :: n in names <==> n == names[0] || n in names[1..]
  {
    DistinctTail(names);
  }

  /** The scan stops with the exception exactly when some claimed section's
      filter raises, and the exception is that of the first such section in
      file order. */
  lemma {:induction false} ScanRaises(names: seq<string>, st: ScanState, classify: Classifier)
    requires AllIn(names, st.options) && Distinct(names)
    ensures Scan(names, st, classify).Raised? <==> exists n :: n in names && Crashes(n, st.options[n], classify)
    ensures var r := Scan(names, st, classify);
      r.Raised? ==>
        exists i :: 0 <= i < |names| && Crashes(names[i], st.options[names[i]], classify)
          && r.option == classify(names[i], st.options[names[i]]).result.option
          && r.section == classify(names[i], st.options[names[i]]).result.section
          && forall j :: 0 <= j < i ==> !Crashes(names[j], st.options[names[j]], classify)
  {
    if names != [] {
      match ScanSection(names[0], st, classify)
      case Raised(o, s) =>
        assert Crashes(names[0], st.options[names[0]], classify);
      case Done(next) =>
        LaterSections(names, st, next, classify);
        ScanRaises(names[1..], next, classify);
        var r := Scan(names, st, classify);
        if r.Raised? {
          var k :| 0 <= k < |names[1..]| && Crashes(names[1..][k], next.options[names[1..][k]], classify)
            && r.option == classify(names[1..][k], next.options[names[1..][k]]).result.option
            && r.section == classify(names[1..][k], next.options[names[1..][k]]).result.section
            && forall j :: 0 <= j < k ==> !Crashes(names[1..][j], next.options[names[1..][j]], classify);
          assert names[k + 1] == names[1..][k] && names[k + 1] in names[1..];
          forall j | 0 <= j < k + 1 ensures !Crashes(names[j], st.options[names[j]], classify) {
            if j > 0 {
              assert names[j] == names[1..][j - 1] && names[j] in names[1..];
            }
          }
        }
    }
  }

  /** A failed section sets the flag without stopping the scan: the flag ends
      up set exactly when it was set or some claimed section failed. */
  lemma {:induction false} ScanFailed(names: seq<string>, st: ScanState, classify: Classifier)
    requires AllIn(names, st.options) && Distinct(names)
    ensures var r := Scan(names, st, classify);
      r.Done? ==> (r.value.failed <==> st.failed || exists n :: n in names && Fails(n, st.options[n], classify))
  {
    if names != [] {
      match ScanSection(names[0], st, classify)
      case Raised(o, s) =>
      case Done(next) =>
        LaterSections(names, st, next, classify);
        ScanFailed(names[1..], next, classify);
        assert next.failed <==> st.failed || Fails(names[0], st.options[names[0]], classify);
    }
  }

  /** Every visited raw section is left with what its parse left of it; the
      others are untouched. */
  lemma {:induction false} ScanOptions(names: seq<string>, st: ScanState, classify: Classifier)
    requires AllIn(names, st.options) && Distinct(names)
    ensures var r := Scan(names, st, classify);
      r.Done? ==>
        && r.value.options.Keys == st.options.Keys
        && (forall n :: n in names ==> r.value.options[n] == Consumed(classify(n, st.options[n]), st.options[n]))
        && (forall n :: n in st.options && n !in names ==> r.value.options[n] == st.options[n])
  {
    if names != [] {
      match ScanSection(names[0], st, classify)
      case Raised(o, s) =>
      case Done(next) =>
        LaterSections(names, st, next, classify);
        ScanOptions(names[1..], next, classify);
        assert next.options == st.options[names[0] := Consumed(classify(names[0], st.options[names[0]]), st.options[names[0]])];
    }
  }

  /** Successful calendar sections are appended in file order. */
  lemma {:induction false} ScanCalendars(names: seq<string>, st: ScanState, classify: Classifier)
    requires AllIn(names, st.options) && Distinct(names)
    ensures var r := Scan(names, st, classify);
      r.Done? ==> r.value.items.calendars == st.items.calendars + CalendarsOf(names, st.options, classify)
  {
    if names != [] {
      var name := names[0];
      match ScanSection(name, st, classify)
      case Raised(o, s) =>
      case Done(next) =>
        LaterSections(names, st, next, classify);
        ScanCalendars(names[1..], next, classify);
        assert CalendarsOf(names[1..], next.options, classify) == CalendarsOf(names[1..], st.options, classify) by {
          CalendarsOfSame(names[1..], next.options, st.options, classify);
        }
        assert next.items.calendars + CalendarsOf(names[1..], st.options, classify)
            == st.items.calendars + CalendarsOf(names, st.options, classify) by {
          CalendarStep(name, st, next, classify);
        }
    }
  }

  lemma CalendarStep(name: string, st: ScanState, next: ScanState, classify: Classifier)
    requires name in st.options && ScanSection(name, st, classify) == Done(next)
    ensures next.items.calendars == st.items.calendars +
      (if Succeeds(Calendar, name, st.options[name], classify) then [ParsedOf(name, st.options[name], classify)] else [])
  {
    var v := classify(name, st.options[name]);
    if v.Matched? && v.result.Done? && !v.result.value.failed {
      assert next.items == Store(st.items, v.kind, v.result.value.parsed);
    }
  }

  lemma {:induction false} CalendarsOfSame(names: seq<string>, a: map<string, OptionMap>, b: map<string, OptionMap>, classify: Classifier)
    requires AllIn(names, a) && AllIn(names, b)
    requires forall n :: n in names ==> a[n] == b[n]
    ensures CalendarsOf(names, a, classify) == CalendarsOf(names, b, classify)
  {
    if names != [] {
      CalendarsOfSame(names[1..], a, b, classify);
    }
  }

  lemma SlotStep(name: string, st: ScanState, next: ScanState, classify: Classifier, kind: Kind)
    requires name in st.options && ScanSection(name, st, classify) == Done(next) && !IsCollection(kind)
    ensures Slot(next.items, kind) ==
      if Succeeds(kind, name, st.options[name], classify) then Some(ParsedOf(name, st.options[name], classify)) else Slot(st.items, kind)
  {
  }

  /** A plain group keeps its earlier value when no section of its kind
      succeeds. */
  lemma {:induction false} ScanSlotUnchanged(names: seq<string>, st: ScanState, classify: Classifier, kind: Kind)
    requires AllIn(names, st.options) && Distinct(names) && !IsCollection(kind)
    requires forall n :: n in names ==> !Succeeds(kind, n, st.options[n], classify)
    ensures var r := Scan(names, st, classify);
      r.Done? ==> Slot(r.value.items, kind) == Slot(st.items, kind)
  {
    if names != [] {
      match ScanSection(names[0], st, classify)
      case Raised(o, s) =>
      case Done(next) =>
        LaterSections(names, st, next, classify);
        SlotStep(names[0], st, next, classify, kind);
        ScanSlotUnchanged(names[1..], next, classify, kind);
    }
  }

  /** A plain group holds what the last successful section of its kind
      parsed: later sections overwrite earlier ones. */
  lemma {:induction false} ScanSlotLast(names: seq<string>, st: ScanState, classify: Classifier, kind: Kind, i: nat)
    requires AllIn(names, st.options) && Distinct(names) && !IsCollection(kind)
    requires i < |names| && Succeeds(kind, names[i], st.options[names[i]], classify)
    requires forall j :: i < j < |names| ==> !Succeeds(kind, names[j], st.options[names[j]], classify)
    ensures var r := Scan(names, st, classify);
      r.Done? ==> Slot(r.value.items, kind) == Some(ParsedOf(names[i], st.options[names[i]], classify))
  {
    var name, rest := names[0], names[1..];
    match ScanSection(name, st, classify)
    case Raised(o, s) =>
    case Done(next) =>
      LaterSections(names, st, next, classify);
      if i == 0 {
        SlotStep(name, st, next, classify, kind);
        forall n | n in rest ensures !Succeeds(kind, n, next.options[n], classify) {
          var j :| 0 <= j < |rest| && rest[j] == n;
          assert names[j + 1] == n;
        }
        ScanSlotUnchanged(rest, next, classify, kind);
      } else {
        assert rest[i - 1] == names[i];
        forall j | i - 1 < j < |rest| ensures !Succeeds(kind, rest[j], next.options[rest[j]], classify) {
          assert rest[j] == names[j + 1];
        }
        ScanSlotLast(rest, next, classify, kind, i - 1);
      }
  }

  /** The scan adds to the log the unknown sections and what the claimed
      sections log, and nothing else. */
  lemma {:induction false} ScanLog(names: seq<string>, st: ScanState, classify: Classifier)
    requires AllIn(names, st.options) && Distinct(names)
    ensures var r := Scan(names, st, classify);
      r.Done? ==> forall m :: m in r.value.log ==>
        m in st.log || m.UnknownSection? || exists n :: n in names && SectionLogs(m, classify(n, st.options[n]))
  {
    if names != [] {
      match ScanSection(names[0], st, classify)
      case Raised(o, s) =>
      case Done(next) =>
        LaterSections(names, st, next, classify);
        ScanLog(names[1..], next, classify);
    }
  }

  /** What visiting one section adds to the log: the unknown-section warning,
      or the messages of its parse (nothing when its filter raised). */
  function SectionMessages(name: string, opts: OptionMap, classify: Classifier): seq<Message> {
    match classify(name, opts)
    case Unmatched => [UnknownSection(name)]
    case Matched(_, Raised(_, _)) => []
    case Matched(_, Done(fs)) => fs.log
  }

  /** The messages of all sections, in file order. */
  function ScanMessages(names: seq<string>, options: map<string, OptionMap>, classify: Classifier): seq<Message>
    requires AllIn(names, options)
  {
    if names == [] then []
    else SectionMessages(names[0], options[names[0]], classify) + ScanMessages(names[1..], options, classify)
  }

  lemma {:induction false} ScanMessagesSame(names: seq<string>, a: map<string, OptionMap>, b: map<string, OptionMap>, classify: Classifier)
    requires AllIn(names, a) && AllIn(names, b)
    requires forall n :: n in names ==> a[n] == b[n]
    ensures ScanMessages(names, a, classify) == ScanMessages(names, b, classify)
  {
    if names != [] {
      ScanMessagesSame(names[1..], a, b, classify);
    }
  }

  /** The scan's log is the log it started with followed by every section's
      messages in file order: each unknown section's warning and everything
      each claimed section logged. */
  lemma {:induction false} ScanLogExact(names: seq<string>, st: ScanState, classify: Classifier)
    requires AllIn(names, st.options) && Distinct(names)
    ensures var r := Scan(names, st, classify);
      r.Done? ==> r.value.log == st.log + ScanMessages(names, st.options, classify)
  {
    if names != [] {
      var name := names[0];
      match ScanSection(name, st, classify)
      case Raised(o, s) =>
      case Done(next) =>
        LaterSections(names, st, next, classify);
        ScanLogExact(names[1..], next, classify);
        ScanMessagesSame(names[1..], next.options, st.options, classify);
        assert next.log == st.log + SectionMessages(name, st.options[name], classify);
    }
  }

  /** A message is among the sections' messages exactly when it is the
      warning of an unknown section or something a claimed section logged. */
  lemma {:induction false} ScanMessagesMembers(names: seq<string>, options: map<string, OptionMap>, classify: Classifier)
    requires AllIn(names, options)
    ensures forall m :: m in ScanMessages(names, options, classify) <==>
      exists n :: n in names &&
        ((classify(n, options[n]).Unmatched? && m == UnknownSection(n)) || SectionLogs(m, classify(n, options[n])))
  {
    if names != [] {
      ScanMessagesMembers(names[1..], options, classify);
      assert forall n :: n in names <==> n == names[0] || n in names[1..];
    }
  }

  /** Some section was claimed by `kind` and parsed without failure. */
  predicate HasSuccess(kind: Kind, names: seq<string>, options: map<string, OptionMap>, classify: Classifier)
    requires AllIn(names, options)
  {
    exists n :: n in names && Succeeds(kind, n, options[n], classify)
  }

  /** The last section that `kind` parsed successfully. */
  lemma LastSuccess(kind: Kind, names: seq<string>, options: map<string, OptionMap>, classify: Classifier) returns (i: nat)
    requires AllIn(names, options) && HasSuccess(kind, names, options, classify)
    ensures i < |names| && Succeeds(kind, names[i], options[names[i]], classify)
    ensures forall j :: i < j < |names| ==> !Succeeds(kind, names[j], options[names[j]], classify)
  {
    var n :| n in names && Succeeds(kind, n, options[n], classify);
    var k :| 0 <= k < |names| && names[k] == n;
    i := LastSuccessBelow(kind, names, options, classify, |names|, k);
  }

  lemma {:induction false} LastSuccessBelow(kind: Kind, names: seq<string>, options: map<string, OptionMap>, classify: Classifier,
                                            m: nat, k: nat) returns (i: nat)
    requires AllIn(names, options) && k < m <= |names| && Succeeds(kind, names[k], options[names[k]], classify)
    ensures k <= i < m && Succeeds(kind, names[i], options[names[i]], classify)
    ensures forall j :: i < j < m ==> !Succeeds(kind, names[j], options[names[j]], classify)
    decreases m
  {
    if Succeeds(kind, names[m - 1], options[names[m - 1]], classify) {
      i := m - 1;
    } else {
      i := LastSuccessBelow(kind, names, options, classify, m - 1, k);
    }
  }

  /** The calendar list holds exactly the successful calendar sections. */
  lemma {:induction false} CalendarsOfMembers(names: seq<string>, options: map<string, OptionMap>, classify: Classifier)
    requires AllIn(names, options)
    ensures forall c :: c in CalendarsOf(names, options, classify) <==>
      exists n :: n in names && Succeeds(Calendar, n, options[n], classify) && c == ParsedOf(n, options[n], classify)
    ensures CalendarsOf(names, options, classify) != [] <==> HasSuccess(Calendar, names, options, classify)
  {
    if names != [] {
      CalendarsOfMembers(names[1..], options, classify);
      assert forall n :: n in names <==> n == names[0] || n in names[1..];
    }
  }

  /** After a scan from the empty dict, a group is present exactly when some
      section of its kind succeeded. */
  lemma PresentAfterScan(names: seq<string>, options: map<string, OptionMap>, classify: Classifier, kind: Kind)
    requires AllIn(names, options) && Distinct(names)
    ensures var r := Scan(names, ScanState(NoItems, false, options, []), classify);
      r.Done? ==> (Present(r.value.items, kind) <==> HasSuccess(kind, names, options, classify))
  {
    var st := ScanState(NoItems, false, options, []);
    if IsCollection(kind) {
      ScanCalendars(names, st, classify);
      CalendarsOfMembers(names, options, classify);
    } else if HasSuccess(kind, names, options, classify) {
      var i := LastSuccess(kind, names, options, classify);
      ScanSlotLast(names, st, classify, kind, i);
    } else {
      ScanSlotUnchanged(names, st, classify, kind);
    }
  }

  /** A scan from the empty dict finishes unfailed with every required group
      present exactly when no section raises or fails and a default, a locale
      and a calendar section succeed. */
  lemma ScanSucceeds(names: seq<string>, options: map<string, OptionMap>, classify: Classifier)
    requires AllIn(names, options) && Distinct(names)
    ensures var r := Scan(names, ScanState(NoItems, false, options, []), classify);
      r.Done? && !r.value.failed && Complete(r.value.items) <==>
        && (forall n :: n in names ==> !Crashes(n, options[n], classify) && !Fails(n, options[n], classify))
        && HasSuccess(Default, names, options, classify)
        && HasSuccess(Locale, names, options, classify)
        && HasSuccess(Calendar, names, options, classify)
  {
    var st := ScanState(NoItems, false, options, []);
    ScanRaises(names, st, classify);
    ScanFailed(names, st, classify);
    PresentAfterScan(names, options, classify, Default);
    PresentAfterScan(names, options, classify, Locale);
    PresentAfterScan(names, options, classify, Calendar);
    assert forall k :: k in RequiredKinds <==> k == Default || k == Locale || k == Calendar;
  }

  /** check_required: one error per required group that is absent, in the
      order default, locale, calendars. */
  function MissingReport(items: Items, kinds: seq<Kind>): (r: seq<Message>)
    ensures |r| <= |kinds|
    ensures forall m :: m in r ==> m.MissingSection?
    decreases |kinds|
  {
    if kinds == [] then []
    else
      var last := kinds[|kinds| - 1];
      MissingReport(items, kinds[..|kinds| - 1]) + (if Present(items, last) then [] else [MissingSection(Group(last))])
  }

  /** The report names exactly the groups of the absent required kinds. */
  lemma {:induction false} MissingReportExact(items: Items, kinds: seq<Kind>)
    ensures forall m :: m in MissingReport(items, kinds) <==>
      exists k :: k in kinds && !Present(items, k) && m == MissingSection(Group(k))
  {
    if kinds != [] {
      var init, last := kinds[..|kinds| - 1], kinds[|kinds| - 1];
      MissingReportExact(items, init);
      assert kinds == init + [last];
      assert forall k :: k in kinds <==> k in init || k == last;
    }
  }

  /** check_required reports a required group exactly when it is absent. */
  lemma MissingReportRequired(items: Items, kind: Kind)
    requires kind in RequiredKinds
    ensures MissingSection(Group(kind)) in MissingReport(items, RequiredKinds) <==> !Present(items, kind)
  {
    MissingReportExact(items, RequiredKinds);
    if MissingSection(Group(kind)) in MissingReport(items, RequiredKinds) {
      var k :| k in RequiredKinds && !Present(items, k) && MissingSection(Group(kind)) == MissingSection(Group(k));
      assert k == kind;
    }
  }

  /** All sections of the required kinds are present. */
  predicate Complete(items: Items) {
    forall k :: k in RequiredKinds ==> Present(items, k)
  }

  /** The warnings of warn_leftovers for one section. */
  function OptionWarnings(section: string, opts: OptionMap): (r: seq<Message>)
    ensures |r| == |opts|
    ensures forall m :: m in r ==> m.UnknownOption? && m.section == section
    decreases |opts|
  {
    if opts == [] then []
    else OptionWarnings(section, opts[..|opts| - 1]) + [UnknownOption(opts[|opts| - 1].0, section)]
  }

  /** warn_leftovers: every option still in any raw section, section by
      section; it only warns about unknown options of the listed sections. */
  function Leftovers(names: seq<string>, options: map<string, OptionMap>): (r: seq<Message>)
    requires AllIn(names, options)
    ensures forall m :: m in r ==> m.UnknownOption? && m.section in names
    decreases |names|
  {
    if names == [] then []
    else
      var last := names[|names| - 1];
      Leftovers(names[..|names| - 1], options) + OptionWarnings(last, options[last])
  }

  lemma {:induction false} OptionWarningsExact(section: string, opts: OptionMap)
    ensures forall m :: m in OptionWarnings(section, opts) <==> exists p :: p in opts && m == UnknownOption(p.0, section)
  {
    if opts != [] {
      var init, last := opts[..|opts| - 1], opts[|opts| - 1];
      OptionWarningsExact(section, init);
      assert opts == init + [last];
      assert forall p :: p in opts <==> p in init || p == last;
    }
  }

  /** warn_leftovers warns about exactly the options left in the sections. */
  lemma {:induction false} LeftoversExact(names: seq<string>, options: map<string, OptionMap>)
    requires AllIn(names, options)
    ensures forall m :: m in Leftovers(names, options) ==> m.UnknownOption?
    ensures forall k, s :: UnknownOption(k, s) in Leftovers(names, options) <==> s in names && HasKey(options[s], k)
  {
    if names != [] {
      var init, last := names[..|names| - 1], names[|names| - 1];
      assert names == init + [last];
      assert AllIn(init, options);
      LeftoversExact(init, options);
      OptionWarningsExact(last, options[last]);
      assert forall s :: s in names <==> s in init || s == last;
    }
  }
}
