/** ConfigParser.parse_config: scan the raw sections in file order, hand each
    to the first schema that matches its name, collect the parsed values by
    group, then check the required groups and report the options no schema
    consumed. */
module Assembler {
  import opened Values
  import opened RawConfig
  import opened Schema
  import opened Sections
  import opened SectionKinds
  import opened Scanning

  /** _get_section_parser and Section.parse on one raw section. */
  function Classify(name: string, opts: OptionMap, host: Host): Verdict {
    match FirstMatch(name)
    case None => Unmatched
    case Some(kind) => Matched(kind, ParseSection(kind, name, opts, host))
  }

  /** The schemas of the registry, tried in order. */
  function Registered(host: Host): Classifier {
    (name, opts) => Classify(name, opts, host)
  }

  /** What the raw section holds once it has been scanned: a claimed section
      has lost every option of its schema, an unclaimed one keeps them all. */
  function Remaining(name: string, opts: OptionMap, host: Host): OptionMap {
    match FirstMatch(name)
    case None => opts
    case Some(kind) => Without(opts, OptionNames(Fields(kind, host.cacheHome)))
  }

  /** A section that was parsed to the end lost exactly its schema's options. */
  lemma ConsumedIsRemaining(name: string, opts: OptionMap, host: Host)
    requires !Crashes(name, opts, Registered(host))
    ensures Consumed(Registered(host)(name, opts), opts) == Remaining(name, opts, host)
  {
    match FirstMatch(name)
    case None =>
    case Some(kind) =>
      SectionConsumes(kind, name, opts, host);
  }

  /** A claimed section keeps none of its schema's options; an unclaimed one
      keeps all of its options. */
  lemma RemainingOptions(name: string, opts: OptionMap, host: Host)
    ensures FirstMatch(name).None? ==> Remaining(name, opts, host) == opts
    ensures FirstMatch(name).Some? ==>
      forall k :: HasKey(Remaining(name, opts, host), k) <==>
        HasKey(opts, k) && k !in OptionNames(Fields(FirstMatch(name).value, host.cacheHome))
  {
    if FirstMatch(name).Some? {
      var names := OptionNames(Fields(FirstMatch(name).value, host.cacheHome));
      WithoutMembers(opts, names);
    }
  }

  /** A claimed section only logs missing options and invalid commands. */
  lemma SectionLogKinds(m: Message, name: string, opts: OptionMap, host: Host)
    requires SectionLogs(m, Registered(host)(name, opts))
    ensures m.MissingOption? || m.InvalidCommand?
  {
    var kind := FirstMatch(name).value;
    ParseFieldsLogKinds(Fields(kind, host.cacheHome), name, FieldsState(InitialParsed(kind, name), opts, false, []), host);
  }

  /** What RawConfigParser.read produced: nothing (the file could not be
      read), a syntax error, or the section names in file order with their
      options. */
  datatype ReadResult = Unreadable | Malformed | Read(names: seq<string>, options: map<string, OptionMap>)

  predicate ReadValid(read: ReadResult) {
    read.Read? ==> WellFormed(read.names, read.options)
  }

  /** ConfigParser.parse_config: the configuration (None on failure) and the
      messages logged, or the exception a filter raised. A file that cannot
      be read or parsed yields None with one message; a returned
      configuration has every required group. */
  function ConfigOf(read: ReadResult, host: Host): (r: Outcome<Logged<Option<Items>>>)
    requires ReadValid(read)
    ensures !read.Read? ==> r.Done? && r.value.value.None? && |r.value.log| == 1
    ensures r.Done? && r.value.value.Some? ==> read.Read? && Complete(r.value.value.value)
  {
    match read
    case Unreadable => Done(Logged(None, [CannotRead]))
    case Malformed => Done(Logged(None, [CannotParse]))
    case Read(names, options) =>
      match Scan(names, ScanState(NoItems, false, options, []), Registered(host))
      case Raised(o, s) => Raised(o, s)
      case Done(st) =>
        var failed := !Complete(st.items) || st.failed;
        Done(Logged(if failed then None else Some(st.items),
                    st.log + MissingReport(st.items, RequiredKinds) + Leftovers(names, st.options)))
  }

  /** parse_config raises exactly when the file was read and some claimed
      section's filter raised. */
  lemma ConfigOfRaises(read: ReadResult, host: Host)
    requires ReadValid(read)
    ensures ConfigOf(read, host).Raised? <==>
      read.Read? && exists n :: n in read.names && Crashes(n, read.options[n], Registered(host))
  {
    if read.Read? {
      ScanRaises(read.names, ScanState(NoItems, false, read.options, []), Registered(host));
    }
  }

  /** parse_config returns a configuration exactly when the file was read,
      no section raised or failed, and a default, a locale and at least one
      calendar section succeeded. */
  lemma ConfigOfSucceeds(read: ReadResult, host: Host)
    requires ReadValid(read)
    ensures var c := Registered(host);
      var r := ConfigOf(read, host);
      r.Done? && r.value.value.Some? <==>
        && read.Read?
        && (forall n :: n in read.names ==> !Crashes(n, read.options[n], c) && !Fails(n, read.options[n], c))
        && HasSuccess(Default, read.names, read.options, c)
        && HasSuccess(Locale, read.names, read.options, c)
        && HasSuccess(Calendar, read.names, read.options, c)
  {
    if read.Read? {
      ScanSucceeds(read.names, read.options, Registered(host));
    }
  }

  /** The configuration parse_config returns holds the calendars of the
      successful calendar sections in file order. */
  lemma ConfigOfCalendars(read: ReadResult, host: Host)
    requires ReadValid(read) && read.Read?
    ensures var r := ConfigOf(read, host);
      r.Done? && r.value.value.Some? ==>
        r.value.value.value.calendars == CalendarsOf(read.names, read.options, Registered(host))
  {
    ScanCalendars(read.names, ScanState(NoItems, false, read.options, []), Registered(host));
  }

  /** In each plain group, the configuration holds the values of the last
      successful section of that kind: later sections overwrite earlier ones. */
  lemma ConfigOfSlot(read: ReadResult, host: Host, kind: Kind, i: nat)
    requires ReadValid(read) && read.Read? && !IsCollection(kind)
    requires i < |read.names| && Succeeds(kind, read.names[i], read.options[read.names[i]], Registered(host))
    requires forall j :: i < j < |read.names| ==> !Succeeds(kind, read.names[j], read.options[read.names[j]], Registered(host))
    ensures var r := ConfigOf(read, host);
      r.Done? && r.value.value.Some? ==>
        Slot(r.value.value.value, kind) == Some(ParsedOf(read.names[i], read.options[read.names[i]], Registered(host)))
  {
    var st := ScanState(NoItems, false, read.options, []);
    var scan := Scan(read.names, st, Registered(host));
    if scan.Done? {
      var fin := scan.value;
      assert ConfigOf(read, host).value.value.Some? ==> ConfigOf(read, host).value.value.value == fin.items;
      ScanSlotLast(read.names, st, Registered(host), kind, i);
    } else {
      assert ConfigOf(read, host).Raised?;
    }
  }

  /** The log of parse_config names a missing group exactly when no section
      of that kind succeeded. */
  lemma ConfigOfMissing(read: ReadResult, host: Host, kind: Kind)
    requires ReadValid(read) && read.Read? && kind in RequiredKinds
    ensures var r := ConfigOf(read, host);
      r.Done? ==> (MissingSection(Group(kind)) in r.value.log <==> !HasSuccess(kind, read.names, read.options, Registered(host)))
  {
    var names, options, c := read.names, read.options, Registered(host);
    var st := ScanState(NoItems, false, options, []);
    var r := Scan(names, st, c);
    if r.Done? {
      var fin := r.value;
      var m := MissingSection(Group(kind));
      assert m !in fin.log by {
        ScanLog(names, st, c);
        forall n | n in names && SectionLogs(m, c(n, options[n])) ensures false {
          SectionLogKinds(m, n, options[n], host);
        }
      }
      assert m !in Leftovers(names, fin.options) by {
        LeftoversExact(names, fin.options);
      }
      assert m in MissingReport(fin.items, RequiredKinds) <==> !HasSuccess(kind, names, options, c) by {
        MissingReportRequired(fin.items, kind);
        PresentAfterScan(names, options, c, kind);
      }
    }
  }

  /** The log of parse_config starts with the messages of every section in
      file order: the warning of each unknown section and everything each
      claimed section logged. */
  lemma ConfigOfLogPrefix(read: ReadResult, host: Host)
    requires ReadValid(read) && read.Read?
    ensures var r := ConfigOf(read, host);
      r.Done? ==> ScanMessages(read.names, read.options, Registered(host)) <= r.value.log
  {
    var st := ScanState(NoItems, false, read.options, []);
    var scan := Scan(read.names, st, Registered(host));
    if scan.Done? {
      var fin := scan.value;
      var tail := MissingReport(fin.items, RequiredKinds) + Leftovers(read.names, fin.options);
      assert ConfigOf(read, host).value.log == fin.log + tail;
      ScanLogExact(read.names, st, Registered(host));
      assert fin.log == ScanMessages(read.names, read.options, Registered(host));
      assert fin.log <= fin.log + tail;
    } else {
      assert ConfigOf(read, host).Raised?;
    }
  }

  /** parse_config warns about a section as unknown exactly when it is one of
      the file's sections and no schema claims it. */
  lemma ConfigOfUnknown(read: ReadResult, host: Host)
    requires ReadValid(read) && read.Read?
    ensures var r := ConfigOf(read, host);
      r.Done? ==> forall s :: UnknownSection(s) in r.value.log <==> s in read.names && FirstMatch(s).None?
  {
    var names, options, c := read.names, read.options, Registered(host);
    var st := ScanState(NoItems, false, options, []);
    var r := Scan(names, st, c);
    if r.Done? {
      var fin := r.value;
      ScanLogExact(names, st, c);
      ScanMessagesMembers(names, options, c);
      forall s ensures UnknownSection(s) in ScanMessages(names, options, c) <==> s in names && FirstMatch(s).None? {
        forall n | n in names && SectionLogs(UnknownSection(s), c(n, options[n])) ensures false {
          SectionLogKinds(UnknownSection(s), n, options[n], host);
        }
      }
      assert forall s :: UnknownSection(s) !in Leftovers(names, fin.options) by {
        LeftoversExact(names, fin.options);
      }
      assert forall s :: UnknownSection(s) !in MissingReport(fin.items, RequiredKinds) by {
        MissingReportExact(fin.items, RequiredKinds);
      }
    }
  }

  /** Every message a claimed section logs (its missing options and an
      invalid command) reaches the log of parse_config. */
  lemma ConfigOfSectionLogs(read: ReadResult, host: Host)
    requires ReadValid(read) && read.Read?
    ensures var r := ConfigOf(read, host);
      r.Done? ==>
        forall n, m ::
          (&& n in read.names && FirstMatch(n).Some?
           && ParseSection(FirstMatch(n).value, n, read.options[n], host).Done?
           && m in ParseSection(FirstMatch(n).value, n, read.options[n], host).value.log)
          ==> m in r.value.log
  {
    var names, options, c := read.names, read.options, Registered(host);
    var r := ConfigOf(read, host);
    if r.Done? {
      ConfigOfLogPrefix(read, host);
      ScanMessagesMembers(names, options, c);
      forall n, m | n in names && FirstMatch(n).Some? &&
          ParseSection(FirstMatch(n).value, n, options[n], host).Done? &&
          m in ParseSection(FirstMatch(n).value, n, options[n], host).value.log
        ensures m in r.value.log
      {
        assert SectionLogs(m, c(n, options[n]));
        assert m in ScanMessages(names, options, c);
      }
    }
  }

  /** warn_leftovers warns about exactly the options that no schema consumed:
      all options of an unclaimed section, the unknown ones of a claimed one. */
  lemma ConfigOfLeftovers(read: ReadResult, host: Host)
    requires ReadValid(read) && read.Read?
    ensures var r := ConfigOf(read, host);
      r.Done? ==>
        forall o, s :: UnknownOption(o, s) in r.value.log <==> s in read.names && HasKey(Remaining(s, read.options[s], host), o)
  {
    var names, options, c := read.names, read.options, Registered(host);
    var st := ScanState(NoItems, false, options, []);
    var r := Scan(names, st, c);
    if r.Done? {
      var fin := r.value;
      assert forall o, s :: UnknownOption(o, s) !in fin.log by {
        ScanLog(names, st, c);
        forall o, s, n | n in names && SectionLogs(UnknownOption(o, s), c(n, options[n])) ensures false {
          SectionLogKinds(UnknownOption(o, s), n, options[n], host);
        }
      }
      assert forall o, s :: UnknownOption(o, s) !in MissingReport(fin.items, RequiredKinds) by {
        MissingReportExact(fin.items, RequiredKinds);
      }
      assert forall s :: s in names ==> fin.options[s] == Remaining(s, options[s], host) by {
        ScanOptions(names, st, c);
        ScanRaises(names, st, c);
        forall s | s in names ensures fin.options[s] == Remaining(s, options[s], host) {
          ConsumedIsRemaining(s, options[s], host);
        }
      }
      LeftoversExact(names, fin.options);
    }
  }

  /** The loader object: it owns the raw parser it reads the file into, and
      every schema instance it creates shares that parser. */
  class ConfigParser {
    var confParser: RawConfigParser?

    constructor ()
      ensures confParser == null
    {
      confParser := null;
    }

    /** _get_section_parser: a fresh instance of each schema in registry
        order, the first whose name test accepts the section. */
    method GetSectionParser(section: string, host: Host) returns (p: Section?)
      requires confParser != null
      ensures p == null <==> FirstMatch(section).None?
      ensures p != null ==>
        && fresh(p)
        && p.kind == FirstMatch(section).value
        && p.parser == confParser
        && p.schema == Fields(p.kind, host.cacheHome)
        && p.parsed == InitialParsed(p.kind, section)
    {
      var i := 0;
      while i < |Registry|
        invariant 0 <= i <= |Registry|
        invariant forall j :: 0 <= j < i ==> !NameMatches(Registry[j], section)
      {
        var candidate := new Section(Registry[i], confParser, host.cacheHome);
        var m := candidate.Matches(section);
        if m {
          FirstMatchIsFirst(section, i);
          return candidate;
        }
        i := i + 1;
      }
      FirstMatchIsFirst(section, 0);
      return null;
    }

    /** check_required: whether a required group is absent, and one error
        per absent group in registry order. */
    method CheckRequired(items: Items) returns (failed: bool, log: seq<Message>)
      ensures failed <==> !Complete(items)
      ensures log == MissingReport(items, RequiredKinds)
    {
      failed := false;
      log := [];
      var i := 0;
      while i < |RequiredKinds|
        invariant 0 <= i <= |RequiredKinds|
        invariant failed <==> exists j :: 0 <= j < i && !Present(items, RequiredKinds[j])
        invariant log == MissingReport(items, RequiredKinds[..i])
      {
        var kind := RequiredKinds[i];
        assert RequiredKinds[..i + 1][..i] == RequiredKinds[..i];
        if !Present(items, kind) {
          log := log + [MissingSection(Group(kind))];
          failed := true;
        }
        i := i + 1;
      }
      assert RequiredKinds[..i] == RequiredKinds;
      assert forall k :: k in RequiredKinds ==> exists j :: 0 <= j < 3 && RequiredKinds[j] == k;
    }

    /** The inner loop of warn_leftovers: one warning per option of a
        section, in file order. */
    method WarnOptions(section: string, opts: OptionMap) returns (log: seq<Message>)
      ensures log == OptionWarnings(section, opts)
    {
      log := [];
      var j := 0;
      while j < |opts|
        invariant 0 <= j <= |opts|
        invariant log == OptionWarnings(section, opts[..j])
      {
        assert opts[..j + 1][..j] == opts[..j];
        log := log + [UnknownOption(opts[j].0, section)];
        j := j + 1;
      }
      assert opts[..j] == opts;
    }

    /** warn_leftovers: one warning per option still in the raw parser,
        section by section in file order. */
    method WarnLeftovers() returns (log: seq<Message>)
      requires confParser != null && confParser.Valid()
      ensures log == Leftovers(confParser.names, confParser.options)
    {
      var names := confParser.names;
      log := [];
      var i := 0;
      while i < |names|
        invariant 0 <= i <= |names|
        invariant AllIn(names[..i], confParser.options)
        invariant log == Leftovers(names[..i], confParser.options)
      {
        var section := names[i];
        var warnings := WarnOptions(section, confParser.options[section]);
        log := log + warnings;
        assert names[..i + 1][..i] == names[..i];
        i := i + 1;
      }
      assert names[..i] == names;
    }

    /** One iteration of the loop in parse_config: an unknown section is
        logged, a claimed one is parsed and its values stored in its group,
        or the section fails, or its filter error propagates. */
    method VisitSection(section: string, host: Host, items: Items, failed: bool, log: seq<Message>)
      returns (r: Outcome<(Items, bool, seq<Message>)>)
      requires confParser != null && confParser.Valid() && section in confParser.options
      modifies confParser
      ensures confParser.Valid()
      ensures match ScanSection(section, ScanState(items, failed, old(confParser.options), log), Registered(host))
        case Raised(o, s) => r == Raised(o, s)
        case Done(next) => r == Done((next.items, next.failed, next.log)) && confParser.options == next.options
    {
      var p := GetSectionParser(section, host);
      if p == null {
        return Done((items, failed, log + [UnknownSection(section)]));
      }
      var values := p.Parse(section, host);
      if values.Raised? {
        return Raised(values.option, values.section);
      }
      if values.value.value.None? {
        r := Done((items, true, log + values.value.log));
      } else {
        r := Done((Store(items, p.kind, values.value.value.value), failed, log + values.value.log));
      }
    }

    /** parse_config: the configuration and the log are those of ConfigOf,
        and the raw parser is left with the options nobody consumed. */
    method ParseConfig(read: ReadResult, host: Host) returns (r: Outcome<Logged<Option<Items>>>)
      requires ReadValid(read)
      modifies this
      ensures r == ConfigOf(read, host)
    {
      match read
      case Unreadable => return Done(Logged(None, [CannotRead]));
      case Malformed => return Done(Logged(None, [CannotParse]));
      case Read(names, options) =>
        confParser := new RawConfigParser(names, options);
        var raw := confParser;
        ghost var c := Registered(host);
        ghost var start := ScanState(NoItems, false, options, []);
        var items := NoItems;
        var failed := false;
        var log: seq<Message> := [];
        var i := 0;
        while i < |names|
          invariant 0 <= i <= |names|
          invariant confParser == raw && raw.names == names && raw.Valid()
          invariant AllIn(names[i..], raw.options)
          invariant Scan(names, start, c) == Scan(names[i..], ScanState(items, failed, raw.options, log), c)
        {
          var section := names[i];
          ScanUnfold(names, i, ScanState(items, failed, raw.options, log), c);
          var step := VisitSection(section, host, items, failed, log);
          if step.Raised? {
            return Raised(step.option, step.section);
          }
          items, failed, log := step.value.0, step.value.1, step.value.2;
          assert AllIn(names[i + 1..], raw.options) by {
            assert forall n :: n in names[i + 1..] ==> n in names;
          }
          i := i + 1;
        }
        ScanUnfold(names, i, ScanState(items, failed, raw.options, log), c);
        var absent, missing := CheckRequired(items);
        failed := absent || failed;
        var leftovers := WarnLeftovers();
        r := Done(Logged(if failed then None else Some(items), log + missing + leftovers));
    }
  }
}
