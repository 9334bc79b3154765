/** What parsing a section of each of the four kinds yields. */
module SectionKinds {
  import opened Values
  import opened RawConfig
  import opened Schema
  import opened Sections

  /** ParseFieldsRaises for a fresh schema instance. */
  lemma SectionRaises(kind: Kind, name: string, opts: OptionMap, host: Host)
    ensures var r := ParseSection(kind, name, opts, host);
      r.Raised? <==> exists f :: f in Fields(kind, host.cacheHome) && FilterRaises(f, opts, host)
  {
    SchemasDistinct(kind, host.cacheHome);
    ParseFieldsRaises(Fields(kind, host.cacheHome), name, FieldsState(InitialParsed(kind, name), opts, false, []), host);
  }

  /** ParseFieldsConsumes for a fresh schema instance. */
  lemma SectionConsumes(kind: Kind, name: string, opts: OptionMap, host: Host)
    ensures var r := ParseSection(kind, name, opts, host);
      r.Done? ==> r.value.options == Without(opts, OptionNames(Fields(kind, host.cacheHome)))
  {
    SchemasDistinct(kind, host.cacheHome);
    ParseFieldsConsumes(Fields(kind, host.cacheHome), name, FieldsState(InitialParsed(kind, name), opts, false, []), host);
  }

  /** ParseFieldsValues for a fresh schema instance. */
  lemma SectionValues(kind: Kind, name: string, opts: OptionMap, host: Host)
    ensures var fields := Fields(kind, host.cacheHome);
      var r := ParseSection(kind, name, opts, host);
      r.Done? ==>
        && r.value.parsed.Keys == InitialParsed(kind, name).Keys + OptionNames(fields)
        && (forall k :: k in InitialParsed(kind, name) && k !in OptionNames(fields) ==>
              r.value.parsed[k] == InitialParsed(kind, name)[k])
        && (forall f :: f in fields && Lookup(opts, f.option).None? ==>
              r.value.parsed[f.option] == DefaultValue(f.fallback))
        && (forall f :: f in fields && Lookup(opts, f.option).Some? ==>
              ApplyFilter(f.filter, Lookup(opts, f.option).value, host).Yields? &&
              ApplyFilter(f.filter, Lookup(opts, f.option).value, host).value == r.value.parsed[f.option])
  {
    SchemasDistinct(kind, host.cacheHome);
    ParseFieldsValues(Fields(kind, host.cacheHome), name, FieldsState(InitialParsed(kind, name), opts, false, []), host);
  }

  /** ParseFieldsFailure for a fresh schema instance: the section fails
      exactly when a required option is absent, and each absent required
      option is reported. */
  lemma SectionFailure(kind: Kind, name: string, opts: OptionMap, host: Host)
    ensures var required := RequiredOptions(Fields(kind, host.cacheHome));
      var r := ParseSection(kind, name, opts, host);
      r.Done? ==>
        && (r.value.failed <==> exists o :: o in required && Lookup(opts, o).None?)
        && (forall o :: MissingOption(o, name) in r.value.log <==> o in required && Lookup(opts, o).None?)
  {
    var fields := Fields(kind, host.cacheHome);
    var st0 := FieldsState(InitialParsed(kind, name), opts, false, []);
    var r := ParseFields(fields, name, st0, host);
    assert r == ParseSection(kind, name, opts, host);
    SchemasDistinct(kind, host.cacheHome);
    ParseFieldsFailed(fields, name, st0, host);
    ParseFieldsMissing(fields, name, st0, host);
    forall o | o in RequiredOptions(fields) && Lookup(opts, o).None?
      ensures exists f :: f in fields && f.option == o && MissingRequired(f, opts)
    {
      var f :| f in fields && f.fallback.Required? && f.option == o;
      assert MissingRequired(f, opts);
    }
  }

  /** A [default] section never raises and never fails: every option has a
      default. */
  lemma DefaultSectionNeverFails(name: string, opts: OptionMap, host: Host)
    ensures var r := ParseSection(Default, name, opts, host);
      r.Done? && !r.value.failed
  {
    var fields := Fields(Default, host.cacheHome);
    var r := ParseSection(Default, name, opts, host);
    assert r.Done? by {
      SectionRaises(Default, name, opts, host);
      assert forall f :: f in fields ==> !FilterRaises(f, opts, host);
    }
    assert RequiredOptions(fields) == {};
    SectionFailure(Default, name, opts, host);
  }

  /** The values of a [default] section: an unknown default_command is stored
      as None, not rejected, and default_calendar is the raw string or the
      sentinel True. */
  lemma DefaultSectionValues(name: string, opts: OptionMap, host: Host)
    ensures var r := ParseSection(Default, name, opts, host);
      r.Done? ==>
      && r.value.parsed.Keys == {"debug", "default_command", "default_calendar"}
      && r.value.parsed["default_command"] ==
           (match Lookup(opts, "default_command")
            case None => Str("calendar")
            case Some(c) => if c in CommandNames then Str(c) else Null)
      && r.value.parsed["default_calendar"] ==
           (match Lookup(opts, "default_calendar")
            case None => Bool(true)
            case Some(c) => Str(c))
      && r.value.parsed["debug"] ==
           (match Lookup(opts, "debug")
            case None => Bool(false)
            case Some(b) => Bool(ParseBoolString(b)))
  {
    var fields := Fields(Default, host.cacheHome);
    SectionValues(Default, name, opts, host);
    assert OptionNames(fields) == {"debug", "default_command", "default_calendar"};
    assert fields[0] in fields && fields[1] in fields && fields[2] in fields;
  }

  /** The only message a [default] section logs is an unknown
      default_command. */
  lemma DefaultSectionLog(name: string, opts: OptionMap, host: Host)
    ensures var r := ParseSection(Default, name, opts, host);
      r.Done? ==>
      r.value.log == (match Lookup(opts, "default_command")
                      case Some(c) => if c in CommandNames then [] else [InvalidCommand(c)]
                      case None => [])
  {
    var fields := Fields(Default, host.cacheHome);
    var st0 := FieldsState(InitialParsed(Default, name), opts, false, []);
    ParseFieldsUnfold(fields, 0, name, st0, host);
    assert ParseField(fields[0], name, st0, host).Done?;
    var st1 := ParseField(fields[0], name, st0, host).value;
    assert st1.log == [];
    ParseFieldsUnfold(fields, 1, name, st1, host);
    assert ParseField(fields[1], name, st1, host).Done?;
    var st2 := ParseField(fields[1], name, st1, host).value;
    assert Lookup(st1.options, "default_command") == Lookup(opts, "default_command") by {
      LookupWithout(opts, {"debug"}, "default_command");
    }
    ParseFieldsUnfold(fields, 2, name, st2, host);
    assert ParseField(fields[2], name, st2, host).Done?;
    var st3 := ParseField(fields[2], name, st2, host).value;
    assert st3.log == st2.log;
    ParseFieldsUnfold(fields, 3, name, st3, host);
  }

  /** A [sqlite] section never raises and never fails; its path is the
      expanded raw value, or the unexpanded default under the cache directory. */
  lemma SQLiteSectionNeverFails(name: string, opts: OptionMap, host: Host)
    ensures var r := ParseSection(SQLite, name, opts, host);
      && r.Done? && !r.value.failed && r.value.log == []
      && r.value.parsed.Keys == {"path"}
      && r.value.parsed["path"] ==
           (match Lookup(opts, "path")
            case None => Str(host.cacheHome + "/khal/khal.db")
            case Some(p) => Str(host.expandUser(host.expandVars(p))))
  {
    var fields := Fields(SQLite, host.cacheHome);
    var r := ParseSection(SQLite, name, opts, host);
    assert r.Done? by {
      SectionRaises(SQLite, name, opts, host);
      assert forall f :: f in fields ==> !FilterRaises(f, opts, host);
    }
    assert RequiredOptions(fields) == {};
    SectionFailure(SQLite, name, opts, host);
    var st0 := FieldsState(InitialParsed(SQLite, name), opts, false, []);
    ParseFieldsUnfold(fields, 0, name, st0, host);
    ParseFieldsUnfold(fields, 1, name, ParseField(fields[0], name, st0, host).value, host);
    SectionValues(SQLite, name, opts, host);
    assert OptionNames(fields) == {"path"};
    assert fields[0] in fields;
  }

  /** The [locale] options without a default, in schema order. */
  const LocaleRequiredNames: seq<string> :=
    ["local_timezone", "default_timezone", "timeformat", "dateformat", "longdateformat",
     "datetimeformat", "longdatetimeformat"]

  const LocaleRequired: set<string> := set i | 0 <= i < |LocaleRequiredNames| :: LocaleRequiredNames[i]

  /** Every required [locale] option is one of the seven. */
  lemma LocaleRequiredWithin(cacheHome: string)
    ensures RequiredOptions(Fields(Locale, cacheHome)) <= LocaleRequired
  {
    var fields := Fields(Locale, cacheHome);
    assert |fields| == 10;
    assert forall i :: 0 <= i < 7 ==> fields[i].option == LocaleRequiredNames[i];
    assert forall i :: 7 <= i < 10 ==> fields[i].fallback.Given?;
    forall o | o in RequiredOptions(fields) ensures o in LocaleRequired {
      var f :| f in fields && f.fallback.Required? && f.option == o;
      var i :| 0 <= i < |fields| && fields[i] == f;
    }
  }

  /** The i-th of the seven is the i-th [locale] field, which is required. */
  lemma LocaleRequiredAt(cacheHome: string, i: nat)
    requires i < |LocaleRequiredNames|
    ensures LocaleRequiredNames[i] in RequiredOptions(Fields(Locale, cacheHome))
  {
    var fields := Fields(Locale, cacheHome);
    assert fields[i].option == LocaleRequiredNames[i] && fields[i].fallback.Required?;
    RequiredAt(fields, i);
  }

  /** Each of the seven is a required [locale] option. */
  lemma LocaleRequiredCovered(cacheHome: string)
    ensures LocaleRequired <= RequiredOptions(Fields(Locale, cacheHome))
  {
    forall o | o in LocaleRequired ensures o in RequiredOptions(Fields(Locale, cacheHome)) {
      var i :| 0 <= i < |LocaleRequiredNames| && LocaleRequiredNames[i] == o;
      LocaleRequiredAt(cacheHome, i);
    }
  }

  /** Only the time zone and integer filters can raise. */
  lemma FallibleFilter(f: Field, opts: OptionMap, host: Host)
    ensures FilterRaises(f, opts, host) ==> f.filter == TimeZone || f.filter == Integer
  {
  }

  /** The only [locale] fields whose filter can raise. */
  lemma LocaleFallibleFields(f: Field, cacheHome: string)
    requires f in Fields(Locale, cacheHome)
    requires f.filter == TimeZone || f.filter == Integer
    ensures f == Field("local_timezone", Required, TimeZone)
         || f == Field("default_timezone", Required, TimeZone)
         || f == Field("firstweekday", Given(Int(0)), Integer)
  {
    var fields := Fields(Locale, cacheHome);
    var i :| 0 <= i < |fields| && fields[i] == f;
    assert i == 0 || i == 1 || i == 7;
  }

  /** A [locale] section raises exactly when a time zone name is unknown or
      firstweekday is not an integer. */
  lemma LocaleSectionRaises(name: string, opts: OptionMap, host: Host)
    ensures ParseSection(Locale, name, opts, host).Raised? <==>
      || FilterRaises(Field("local_timezone", Required, TimeZone), opts, host)
      || FilterRaises(Field("default_timezone", Required, TimeZone), opts, host)
      || FilterRaises(Field("firstweekday", Given(Int(0)), Integer), opts, host)
  {
    var fields := Fields(Locale, host.cacheHome);
    SectionRaises(Locale, name, opts, host);
    if ParseSection(Locale, name, opts, host).Raised? {
      var f :| f in fields && FilterRaises(f, opts, host);
      FallibleFilter(f, opts, host);
      LocaleFallibleFields(f, host.cacheHome);
    } else {
      assert fields[0] in fields && fields[1] in fields && fields[7] in fields;
    }
  }

  /** A [locale] section that does not raise fails exactly when one of its
      seven required options is missing, and reports exactly the missing ones. */
  lemma LocaleSectionFailure(name: string, opts: OptionMap, host: Host)
    ensures var r := ParseSection(Locale, name, opts, host);
      r.Done? ==>
        && (r.value.failed <==> exists o :: o in LocaleRequired && Lookup(opts, o).None?)
        && (forall o :: MissingOption(o, name) in r.value.log <==> o in LocaleRequired && Lookup(opts, o).None?)
  {
    LocaleRequiredWithin(host.cacheHome);
    LocaleRequiredCovered(host.cacheHome);
    SectionFailure(Locale, name, opts, host);
  }

  /** The optional [locale] fields take their defaults when absent. */
  lemma LocaleSectionDefaults(name: string, opts: OptionMap, host: Host)
    ensures var r := ParseSection(Locale, name, opts, host);
      r.Done? ==>
        && "encoding" in r.value.parsed && "firstweekday" in r.value.parsed && "unicode_symbols" in r.value.parsed
        && (Lookup(opts, "encoding").None? ==> r.value.parsed["encoding"] == Str("utf-8"))
        && (Lookup(opts, "firstweekday").None? ==> r.value.parsed["firstweekday"] == Int(0))
        && (Lookup(opts, "unicode_symbols").None? ==> r.value.parsed["unicode_symbols"] == Bool(true))
  {
    var fields := Fields(Locale, host.cacheHome);
    SectionValues(Locale, name, opts, host);
    assert fields[7] in fields && fields[8] in fields && fields[9] in fields;
  }

  /** A [calendar NAME] section never raises, and fails exactly when it has
      no path, which is then reported. */
  lemma CalendarSectionFailure(name: string, opts: OptionMap, host: Host)
    ensures var r := ParseSection(Calendar, name, opts, host);
      && r.Done?
      && (r.value.failed <==> Lookup(opts, "path").None?)
      && (forall o :: MissingOption(o, name) in r.value.log <==> o == "path" && Lookup(opts, "path").None?)
  {
    var fields := Fields(Calendar, host.cacheHome);
    var r := ParseSection(Calendar, name, opts, host);
    assert r.Done? by {
      SectionRaises(Calendar, name, opts, host);
      assert forall f :: f in fields ==> !FilterRaises(f, opts, host);
    }
    assert RequiredOptions(fields) == {"path"} by {
      assert fields[0] in fields;
    }
    SectionFailure(Calendar, name, opts, host);
  }

  /** The value a field takes from the raw options, when its filter does not
      raise. */
  function FieldValue(f: Field, opts: OptionMap, host: Host): Value {
    match Lookup(opts, f.option)
    case None => DefaultValue(f.fallback)
    case Some(raw) =>
      match ApplyFilter(f.filter, raw, host)
      case Yields(v, _) => v
      case Raises => Null
  }

  /** The i-th field of a section's schema holds its value once parsed. */
  lemma FieldParsed(kind: Kind, name: string, opts: OptionMap, host: Host, i: nat)
    requires i < |Fields(kind, host.cacheHome)|
    ensures var f := Fields(kind, host.cacheHome)[i];
      var r := ParseSection(kind, name, opts, host);
      r.Done? ==> f.option in r.value.parsed && r.value.parsed[f.option] == FieldValue(f, opts, host)
  {
    var fields := Fields(kind, host.cacheHome);
    SectionValues(kind, name, opts, host);
    assert fields[i] in fields;
  }

  lemma CalendarOptionNames(cacheHome: string)
    ensures OptionNames(Fields(Calendar, cacheHome)) == {"path", "readonly", "color"}
  {
    var fields := Fields(Calendar, cacheHome);
    assert fields[0] in fields && fields[1] in fields && fields[2] in fields;
  }

  /** A matched [calendar NAME] section carries the captured name next to its
      three options. */
  lemma CalendarSectionKeys(name: string, opts: OptionMap, host: Host)
    requires NameMatches(Calendar, name)
    ensures var r := ParseSection(Calendar, name, opts, host);
      r.Done? ==>
      && r.value.parsed.Keys == {"name", "path", "readonly", "color"}
      && r.value.parsed["name"] == Str(CalendarName(name))
  {
    CalendarOptionNames(host.cacheHome);
    var initial := InitialParsed(Calendar, name);
    assert initial == map["name" := Str(CalendarName(name))];
    SectionValues(Calendar, name, opts, host);
  }

  /** The three options of a [calendar NAME] section: the expanded path, the
      read-only flag (false by default) and the colour (empty by default). */
  lemma CalendarSectionValues(name: string, opts: OptionMap, host: Host)
    ensures var r := ParseSection(Calendar, name, opts, host);
      r.Done? ==>
      && "path" in r.value.parsed && "readonly" in r.value.parsed && "color" in r.value.parsed
      && (Lookup(opts, "path").Some? ==> r.value.parsed["path"] == Str(host.expandUser(host.expandVars(Lookup(opts, "path").value))))
      && r.value.parsed["readonly"] == (match Lookup(opts, "readonly") case None => Bool(false) case Some(b) => Bool(ParseBoolString(b)))
      && r.value.parsed["color"] == (match Lookup(opts, "color") case None => Str("") case Some(c) => Str(c))
  {
    FieldParsed(Calendar, name, opts, host, 0);
    FieldParsed(Calendar, name, opts, host, 1);
    FieldParsed(Calendar, name, opts, host, 2);
  }
}
