/** Section.parse: visit every field of a schema in order, filter the options
    that are present, fill in the defaults of those that are absent, report
    every absent required option, and remove each visited option from the
    raw section. */
module Sections {
  import opened Values
  import opened RawConfig
  import opened Schema
  import opened Text

  /** What Section.parse has built so far: the parsed values, the options of
      the raw section not yet removed, the failure flag and the log. */
  datatype FieldsState = FieldsState(parsed: Namespace, options: OptionMap, failed: bool, log: seq<Message>)

  /** One iteration of the loop in Section.parse: it raises only on a present
      option, and otherwise gives the option a value, keeps the earlier log,
      and sets the failure flag exactly for an absent required option. */
  function ParseField(field: Field, section: string, st: FieldsState, host: Host): (r: Outcome<FieldsState>)
    ensures r.Raised? ==> r.option == field.option && r.section == section && Lookup(st.options, field.option).Some?
    ensures r.Done? ==>
      && field.option in r.value.parsed
      && st.log <= r.value.log
      && (r.value.failed <==> st.failed || MissingRequired(field, st.options))
  {
    match Lookup(st.options, field.option)
    case Some(raw) =>
      (match ApplyFilter(field.filter, raw, host)
       case Raises => Raised(field.option, section)
       case Yields(v, msgs) =>
         Done(FieldsState(st.parsed[field.option := v], Without(st.options, {field.option}), st.failed, st.log + msgs)))
    case None =>
      var missing := field.fallback.Required?;
      Done(FieldsState(
        st.parsed[field.option := DefaultValue(field.fallback)],
        Without(st.options, {field.option}),
        st.failed || missing,
        st.log + if missing then [MissingOption(field.option, section)] else []))
  }

  /** The whole loop of Section.parse over `fields`: an escaping error names
      this section, and a finished loop keeps what was parsed and logged
      before it and never clears the failure flag. */
  function ParseFields(fields: seq<Field>, section: string, st: FieldsState, host: Host): (r: Outcome<FieldsState>)
    ensures r.Raised? ==> r.section == section
    ensures r.Done? ==> st.parsed.Keys <= r.value.parsed.Keys && st.log <= r.value.log && (st.failed ==> r.value.failed)
    decreases |fields|
  {
    if fields == [] then Done(st)
    else
      match ParseField(fields[0], section, st, host)
      case Raised(o, s) => Raised(o, s)
      case Done(next) => ParseFields(fields[1..], section, next, host)
  }

  lemma ParseFieldsUnfold(fields: seq<Field>, i: nat, section: string, st: FieldsState, host: Host)
    requires i <= |fields|
    ensures i == |fields| ==> ParseFields(fields[i..], section, st, host) == Done(st)
    ensures i < |fields| ==>
      ParseFields(fields[i..], section, st, host) ==
        match ParseField(fields[i], section, st, host)
        case Raised(o, s) => Raised(o, s)
        case Done(next) => ParseFields(fields[i + 1..], section, next, host)
  {
    if i < |fields| {
      assert fields[i..][0] == fields[i] && fields[i..][1..] == fields[i + 1..];
    }
  }

  lemma PresentStep(field: Field, section: string, st: FieldsState, host: Host, raw: string)
    requires Lookup(st.options, field.option) == Some(raw)
    requires ApplyFilter(field.filter, raw, host).Yields?
    ensures var c := ApplyFilter(field.filter, raw, host);
      ParseField(field, section, st, host)
        == Done(FieldsState(st.parsed[field.option := c.value], Without(st.options, {field.option}), st.failed, st.log + c.log))
  {
  }

  lemma AbsentStep(field: Field, section: string, st: FieldsState, host: Host, log: seq<Message>)
    requires Lookup(st.options, field.option).None?
    requires log == if field.fallback.Required? then st.log + [MissingOption(field.option, section)] else st.log
    ensures ParseField(field, section, st, host)
        == Done(FieldsState(st.parsed[field.option := DefaultValue(field.fallback)], Without(st.options, {field.option}),
                            st.failed || field.fallback.Required?, log))
  {
    assert st.log + [] == st.log;
  }

  /** Parsing the raw section `name` (whose options are `opts`) with the
      schema of `kind`, from a fresh instance that has just matched it. */
  function ParseSection(kind: Kind, name: string, opts: OptionMap, host: Host): Outcome<FieldsState> {
    ParseFields(Fields(kind, host.cacheHome), name, FieldsState(InitialParsed(kind, name), opts, false, []), host)
  }

  /** The value Section.parse returns once its loop has finished. */
  function SectionValue(st: FieldsState): Option<Namespace> {
    if st.failed then None else Some(st.parsed)
  }

  /** The field of `fields` whose filter raises on the value present in `opts`. */
  ghost predicate FilterRaises(field: Field, opts: OptionMap, host: Host) {
    Lookup(opts, field.option).Some? && ApplyFilter(field.filter, Lookup(opts, field.option).value, host).Raises?
  }

  ghost predicate MissingRequired(field: Field, opts: OptionMap) {
    field.fallback.Required? && Lookup(opts, field.option).None?
  }

  lemma SplitFields(fields: seq<Field>)
    requires DistinctOptions(fields) && fields != []
    ensures DistinctOptions(fields[1..])
    ensures fields[0].option !in OptionNames(fields[1..])
    ensures OptionNames(fields) == {fields[0].option} + OptionNames(fields[1..])
    ensures forall f :: f in fields <==> f == fields[0] || f in fields[1..]
  {
    var f0, rest := fields[0], fields[1..];
    assert forall f :: f in fields <==> f == f0 || f in rest;
    forall f | f in rest ensures f.option != f0.option {
      var j :| 0 <= j < |rest| && rest[j] == f;
      assert fields[j + 1] == f;
    }
    forall i, j | 0 <= i < j < |rest| ensures rest[i].option != rest[j].option {
      assert rest[i] == fields[i + 1] && rest[j] == fields[j + 1];
    }
  }

  /** After the first field is handled, the later fields see the options they
      would have seen before it. */
  lemma LaterLookups(fields: seq<Field>, opts: OptionMap, next: OptionMap)
    requires DistinctOptions(fields) && fields != []
    requires next == Without(opts, {fields[0].option})
    ensures forall f :: f in fields[1..] ==> Lookup(next, f.option) == Lookup(opts, f.option)
  {
    SplitFields(fields);
    forall f | f in fields[1..] ensures Lookup(next, f.option) == Lookup(opts, f.option) {
      LookupWithout(opts, {fields[0].option}, f.option);
    }
  }

  /** The loop raises exactly when some present option's filter raises, and
      the error names the first such option in schema order, in this section. */
  lemma {:induction false} ParseFieldsRaises(fields: seq<Field>, section: string, st: FieldsState, host: Host)
    requires DistinctOptions(fields)
    ensures var r := ParseFields(fields, section, st, host);
      && (r.Raised? <==> exists f :: f in fields && FilterRaises(f, st.options, host))
      && (r.Raised? ==> r.section == section && exists f :: f in fields && f.option == r.option && FilterRaises(f, st.options, host))
      && (r.Raised? ==>
            exists i :: 0 <= i < |fields| && fields[i].option == r.option && FilterRaises(fields[i], st.options, host)
              && forall j :: 0 <= j < i ==> !FilterRaises(fields[j], st.options, host))
  {
    if fields != [] {
      SplitFields(fields);
      match ParseField(fields[0], section, st, host)
      case Raised(o, s) =>
        assert fields[0] in fields && FilterRaises(fields[0], st.options, host);
      case Done(next) =>
        LaterLookups(fields, st.options, next.options);
        ParseFieldsRaises(fields[1..], section, next, host);
        var r := ParseFields(fields, section, st, host);
        if r.Raised? {
          var k :| 0 <= k < |fields[1..]| && fields[1..][k].option == r.option && FilterRaises(fields[1..][k], next.options, host)
            && forall j :: 0 <= j < k ==> !FilterRaises(fields[1..][j], next.options, host);
          assert fields[k + 1] == fields[1..][k] && fields[k + 1] in fields[1..];
          forall j | 0 <= j < k + 1 ensures !FilterRaises(fields[j], st.options, host) {
            if j > 0 {
              assert fields[j] == fields[1..][j - 1] && fields[j] in fields[1..];
            }
          }
        }
    }
  }

  /** When the loop finishes, exactly the schema's options have been removed
      from the raw section, the others keep their order. */
  lemma {:induction false} ParseFieldsConsumes(fields: seq<Field>, section: string, st: FieldsState, host: Host)
    requires DistinctOptions(fields)
    ensures var r := ParseFields(fields, section, st, host);
      r.Done? ==> r.value.options == Without(st.options, OptionNames(fields))
  {
    if fields == [] {
      WithoutNothing(st.options);
      assert OptionNames(fields) == {};
    } else {
      SplitFields(fields);
      match ParseField(fields[0], section, st, host)
      case Raised(o, s) =>
      case Done(next) =>
        ParseFieldsConsumes(fields[1..], section, next, host);
        WithoutTwice(st.options, {fields[0].option}, OptionNames(fields[1..]));
    }
  }

  /** When the loop finishes, every field has a value: the filtered raw value
      when the option is present, the unfiltered default when it is absent;
      values parsed before the loop under other names are kept. */
  lemma {:induction false} ParseFieldsValues(fields: seq<Field>, section: string, st: FieldsState, host: Host)
    requires DistinctOptions(fields)
    ensures var r := ParseFields(fields, section, st, host);
      r.Done? ==>
        && r.value.parsed.Keys == st.parsed.Keys + OptionNames(fields)
        && (forall k :: k in st.parsed && k !in OptionNames(fields) ==> r.value.parsed[k] == st.parsed[k])
        && (forall f :: f in fields && Lookup(st.options, f.option).None? ==>
              r.value.parsed[f.option] == DefaultValue(f.fallback))
        && (forall f :: f in fields && Lookup(st.options, f.option).Some? ==>
              ApplyFilter(f.filter, Lookup(st.options, f.option).value, host).Yields? &&
              ApplyFilter(f.filter, Lookup(st.options, f.option).value, host).value == r.value.parsed[f.option])
  {
    if fields == [] {
      assert OptionNames(fields) == {};
    } else {
      SplitFields(fields);
      match ParseField(fields[0], section, st, host)
      case Raised(o, s) =>
      case Done(next) =>
        LaterLookups(fields, st.options, next.options);
        ParseFieldsValues(fields[1..], section, next, host);
    }
  }

  /** When the loop finishes, the section has failed exactly when some
      required option is absent. */
  lemma {:induction false} ParseFieldsFailed(fields: seq<Field>, section: string, st: FieldsState, host: Host)
    requires DistinctOptions(fields)
    ensures var r := ParseFields(fields, section, st, host);
      r.Done? ==> (r.value.failed <==> st.failed || exists f :: f in fields && MissingRequired(f, st.options))
  {
    if fields != [] {
      SplitFields(fields);
      match ParseField(fields[0], section, st, host)
      case Raised(o, s) =>
      case Done(next) =>
        LaterLookups(fields, st.options, next.options);
        ParseFieldsFailed(fields[1..], section, next, host);
        assert forall f :: f in fields[1..] ==> (MissingRequired(f, next.options) <==> MissingRequired(f, st.options));
    }
  }

  /** When the loop finishes, each absent required option has been reported,
      and nothing else has been reported as missing. */
  lemma {:induction false} ParseFieldsMissing(fields: seq<Field>, section: string, st: FieldsState, host: Host)
    requires DistinctOptions(fields)
    ensures var r := ParseFields(fields, section, st, host);
      r.Done? ==>
        forall o :: MissingOption(o, section) in r.value.log <==>
          MissingOption(o, section) in st.log || exists f :: f in fields && f.option == o && MissingRequired(f, st.options)
  {
    if fields != [] {
      SplitFields(fields);
      match ParseField(fields[0], section, st, host)
      case Raised(o, s) =>
      case Done(next) =>
        LaterLookups(fields, st.options, next.options);
        ParseFieldsMissing(fields[1..], section, next, host);
        assert forall f :: f in fields[1..] ==> (MissingRequired(f, next.options) <==> MissingRequired(f, st.options));
        MissingStep(fields[0], section, st, next, host);
    }
  }

  lemma MissingStep(field: Field, section: string, st: FieldsState, next: FieldsState, host: Host)
    requires ParseField(field, section, st, host) == Done(next)
    ensures forall o :: MissingOption(o, section) in next.log <==>
      MissingOption(o, section) in st.log || (field.option == o && MissingRequired(field, st.options))
  {
    match Lookup(st.options, field.option)
    case Some(raw) =>
      var c := ApplyFilter(field.filter, raw, host);
      assert next.log == st.log + c.log;
      assert forall o :: MissingOption(o, section) !in c.log;
    case None =>
  }

  /** The loop only ever logs missing options and invalid commands. */
  lemma {:induction false} ParseFieldsLogKinds(fields: seq<Field>, section: string, st: FieldsState, host: Host)
    ensures var r := ParseFields(fields, section, st, host);
      r.Done? ==> forall m :: m in r.value.log ==> m in st.log || m.MissingOption? || m.InvalidCommand?
  {
    if fields != [] {
      match ParseField(fields[0], section, st, host)
      case Raised(o, s) =>
      case Done(next) =>
        ParseFieldsLogKinds(fields[1..], section, next, host);
        assert forall m :: m in next.log ==> m in st.log || m.MissingOption? || m.InvalidCommand?;
    }
  }

  /** A schema instance (Section and its subclasses): its kind, the shared raw
      parser it reads from and removes options from, its schema and the values
      it has parsed so far. */
  class Section {
    const kind: Kind
    const parser: RawConfigParser
    const schema: seq<Field>
    var parsed: Namespace

    constructor (kind: Kind, parser: RawConfigParser, cacheHome: string)
      ensures this.kind == kind && this.parser == parser
      ensures schema == Fields(kind, cacheHome) && parsed == map[]
    {
      this.kind := kind;
      this.parser := parser;
      this.schema := Fields(kind, cacheHome);
      this.parsed := map[];
    }

    /** Section.matches and CalendarSection.matches: a calendar section
        records the captured name among its parsed values. */
    method Matches(name: string) returns (m: bool)
      modifies this
      ensures m == NameMatches(kind, name)
      ensures parsed == if m && kind == Calendar then old(parsed)["name" := Str(CalendarName(name))] else old(parsed)
    {
      if kind == Calendar {
        m := |name| >= |CalendarPrefix| && Lower(name[..|CalendarPrefix|]) == CalendarPrefix;
        if m {
          parsed := parsed["name" := Str(name[|CalendarPrefix|..])];
        }
      } else {
        m := Group(kind) == Lower(name);
      }
    }

    /** One iteration of the loop in Section.parse: read the option, filter
        it or fall back on the default, record a missing required option and
        remove the option from the raw section. */
    method ParseOption(field: Field, section: string, host: Host, failed: bool, log: seq<Message>)
      returns (r: Outcome<(bool, seq<Message>)>)
      requires parser.Valid() && section in parser.options
      modifies this, parser
      ensures parser.Valid() && section in parser.options
      ensures match ParseField(field, section, FieldsState(old(parsed), old(parser.options[section]), failed, log), host)
        case Raised(o, s) => r == Raised(o, s)
        case Done(next) =>
          && r == Done((next.failed, next.log))
          && parsed == next.parsed
          && parser.options == old(parser.options)[section := next.options]
    {
      ghost var here := FieldsState(parsed, parser.options[section], failed, log);
      var raw := parser.Get(section, field.option);
      if raw.Some? {
        var c := ApplyFilter(field.filter, raw.value, host);
        if c.Raises? {
          return Raised(field.option, section);
        }
        PresentStep(field, section, here, host, raw.value);
        parsed := parsed[field.option := c.value];
        parser.RemoveOption(section, field.option);
        r := Done((failed, log + c.log));
      } else {
        var log' := log;
        if field.fallback.Required? {
          log' := log + [MissingOption(field.option, section)];
        }
        AbsentStep(field, section, here, host, log');
        parsed := parsed[field.option := DefaultValue(field.fallback)];
        parser.RemoveOption(section, field.option);
        r := Done((failed || field.fallback.Required?, log'));
      }
    }

    /** Section.parse: the result, the parsed values and the raw section left
        behind are those of ParseFields; on a raised filter error nothing is
        promised about the state, since the exception leaves the loader. */
    method Parse(section: string, host: Host) returns (r: Outcome<Logged<Option<Namespace>>>)
      requires parser.Valid() && section in parser.options
      modifies this, parser
      ensures parser.Valid()
      ensures var spec := ParseFields(schema, section, FieldsState(old(parsed), old(parser.options[section]), false, []), host);
        && (spec.Raised? ==> r == Raised(spec.option, spec.section))
        && (spec.Done? ==>
              && r == Done(Logged(SectionValue(spec.value), spec.value.log))
              && parsed == spec.value.parsed
              && parser.options == old(parser.options)[section := spec.value.options])
    {
      ghost var start := FieldsState(parsed, parser.options[section], false, []);
      var failed := false;
      var log: seq<Message> := [];
      var i := 0;
      while i < |schema|
        invariant 0 <= i <= |schema|
        invariant parser.Valid() && section in parser.options
        invariant parser.options == old(parser.options)[section := parser.options[section]]
        invariant ParseFields(schema, section, start, host)
               == ParseFields(schema[i..], section, FieldsState(parsed, parser.options[section], failed, log), host)
      {
        ParseFieldsUnfold(schema, i, section, FieldsState(parsed, parser.options[section], failed, log), host);
        var step := ParseOption(schema[i], section, host, failed, log);
        if step.Raised? {
          return Raised(step.option, step.section);
        }
        failed, log := step.value.0, step.value.1;
        i := i + 1;
      }
      ParseFieldsUnfold(schema, i, section, FieldsState(parsed, parser.options[section], failed, log), host);
      r := Done(Logged(if failed then None else Some(parsed), log));
    }
  }
}
