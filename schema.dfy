/** The four section schemas: how a section name is matched, whether the
    section kind aggregates into a list, and the ordered option fields with
    their defaults and filters. */
module Schema {
  import opened Values
  import opened Text

  /** The closed set of section kinds, one per Section subclass. */
  datatype Kind = Default | Locale | SQLite | Calendar

  /** The order in which schemas are tried on a section name. */
  const Registry: seq<Kind> := [Default, Locale, SQLite, Calendar]

  /** The kinds whose group must be present after the scan. */
  const RequiredKinds: seq<Kind> := [Default, Locale, Calendar]

  function Group(kind: Kind): string {
    match kind
    case Default => "default"
    case Locale => "locale"
    case SQLite => "sqlite"
    case Calendar => "calendars"
  }

  /** Only calendar sections aggregate into a list. */
  predicate IsCollection(kind: Kind) {
    kind == Calendar
  }

  /** A filter applied to an option's raw string (None in the source is Identity). */
  datatype Filter = Identity | BoolString | Commands | TimeZone | Integer | Path

  /** The default of a field: Required stands for the source's None. */
  datatype Fallback = Required | Given(value: Value)

  datatype Field = Field(option: string, fallback: Fallback, filter: Filter)

  /** The value stored for an absent option; a required one stores None. */
  function DefaultValue(fallback: Fallback): Value {
    match fallback
    case Required => Null
    case Given(v) => v
  }

  /** The schema of each kind; `cacheHome` is the XDG cache directory. */
  function Fields(kind: Kind, cacheHome: string): seq<Field> {
    match kind
    case Calendar => [
      Field("path", Required, Path),
      Field("readonly", Given(Bool(false)), BoolString),
      Field("color", Given(Str("")), Identity)]
    case SQLite => [
      Field("path", Given(Str(cacheHome + "/khal/khal.db")), Path)]
    case Locale => [
      Field("local_timezone", Required, TimeZone),
      Field("default_timezone", Required, TimeZone),
      Field("timeformat", Required, Identity),
      Field("dateformat", Required, Identity),
      Field("longdateformat", Required, Identity),
      Field("datetimeformat", Required, Identity),
      Field("longdatetimeformat", Required, Identity),
      Field("firstweekday", Given(Int(0)), Integer),
      Field("encoding", Given(Str("utf-8")), Identity),
      Field("unicode_symbols", Given(Bool(true)), BoolString)]
    case Default => [
      Field("debug", Given(Bool(false)), BoolString),
      Field("default_command", Given(Str("calendar")), Commands),
      Field("default_calendar", Given(Bool(true)), Identity)]
  }

  function OptionNames(fields: seq<Field>): set<string> {
    set f | f in fields :: f.option
  }

  /** The options of the fields that have no default. */
  function RequiredOptions(fields: seq<Field>): set<string> {
    set f | f in fields && f.fallback.Required? :: f.option
  }

  lemma RequiredAt(fields: seq<Field>, i: nat)
    requires i < |fields| && fields[i].fallback.Required?
    ensures fields[i].option in RequiredOptions(fields)
  {
    assert fields[i] in fields;
  }

  predicate DistinctOptions(fields: seq<Field>) {
    forall i, j :: 0 <= i < j < |fields| ==> fields[i].option != fields[j].option
  }

  /** No schema names an option twice. */
  lemma SchemasDistinct(kind: Kind, cacheHome: string)
    ensures DistinctOptions(Fields(kind, cacheHome))
  {
  }

  const TrueWords: seq<string> := ["true", "yes", "1"]

  /** The true words are already stripped and lower-case. */
  lemma PlainWord(w: string)
    ensures w in TrueWords ==> Strip(w) == w && Lower(w) == w
  {
    if w in TrueWords {
      assert w == "true" || w == "yes" || w == "1";
      assert !IsSpace(w[0]) && !IsSpace(w[|w| - 1]);
      StripPadded("", w, "");
      assert "" + w + "" == w;
      forall i | 0 <= i < |w| ensures LowerChar(w[i]) == w[i] {
        assert !('A' <= w[i] <= 'Z');
      }
    }
  }

  /** Section._parse_bool_string: each true word is accepted as it stands,
      and an accepted string is one to four characters once stripped. */
  function ParseBoolString(value: string): (r: bool)
    ensures value in TrueWords ==> r
    ensures r ==> 1 <= |Strip(value)| <= 4
  {
    PlainWord(value);
    Lower(Strip(value)) in TrueWords
  }

  const CommandNames: seq<string> := ["agenda", "calendar", "new", "interactive", "printcalendars"]

  /** The outcome of a filter: it raises, or yields a value (and may log). */
  datatype Coercion = Raises | Yields(value: Value, log: seq<Message>)

  /** Apply a field's filter to the option's raw string. Only the time-zone
      and integer filters can raise, only the command filter logs, and the
      boolean filter always yields a bool. */
  function ApplyFilter(filter: Filter, raw: string, host: Host): (r: Coercion)
    ensures r.Raises? ==> filter == TimeZone || filter == Integer
    ensures r.Yields? && r.log != [] ==> filter == Commands && r.value == Null && r.log == [InvalidCommand(raw)]
    ensures filter == BoolString ==> r.Yields? && r.value.Bool?
  {
    match filter
    case Identity => Yields(Str(raw), [])
    case BoolString => Yields(Bool(ParseBoolString(raw)), [])
    case Commands =>
      if raw in CommandNames then Yields(Str(raw), []) else Yields(Null, [InvalidCommand(raw)])
    case TimeZone =>
      (match host.timezone(raw)
       case None => Raises
       case Some(zone) => Yields(Zone(zone), []))
    case Integer =>
      (match host.toInt(raw)
       case None => Raises
       case Some(n) => Yields(Int(n), []))
    case Path => Yields(Str(host.expandUser(host.expandVars(raw))), [])
  }

  const CalendarPrefix: string := "calendar "

  /** Section.matches and CalendarSection.matches. The tests exclude each
      other: a name a plain group accepts is no calendar name and no other
      group's name. */
  predicate NameMatches(kind: Kind, name: string)
    ensures NameMatches(kind, name) && kind != Calendar ==>
      && !(|name| >= |CalendarPrefix| && Lower(name[..|CalendarPrefix|]) == CalendarPrefix)
      && forall k :: k != kind && k != Calendar ==> Group(k) != Lower(name)
  {
    if kind == Calendar then
      |name| >= |CalendarPrefix| && Lower(name[..|CalendarPrefix|]) == CalendarPrefix
    else
      Group(kind) == Lower(name)
  }

  /** The text a calendar section's name captures after "calendar ". */
  function CalendarName(name: string): string
    requires NameMatches(Calendar, name)
  {
    name[|CalendarPrefix|..]
  }

  /** What a schema instance has parsed before its options are read: a
      calendar section already holds the captured name. */
  function InitialParsed(kind: Kind, name: string): Namespace {
    if kind == Calendar && NameMatches(Calendar, name) then map["name" := Str(CalendarName(name))]
    else map[]
  }

  function FirstMatchIn(kinds: seq<Kind>, name: string): (r: Option<Kind>)
    ensures r.Some? ==> r.value in kinds && NameMatches(r.value, name)
    ensures r.None? <==> forall k :: k in kinds ==> !NameMatches(k, name)
  {
    if kinds == [] then None
    else if NameMatches(kinds[0], name) then Some(kinds[0])
    else FirstMatchIn(kinds[1..], name)
  }

  /** Every kind has a schema in the registry. */
  lemma RegistryComplete()
    ensures forall k :: k in Registry
  {
    forall k ensures k in Registry {
      match k
      case Default => assert Registry[0] == k;
      case Locale => assert Registry[1] == k;
      case SQLite => assert Registry[2] == k;
      case Calendar => assert Registry[3] == k;
    }
  }

  /** ConfigParser._get_section_parser, as the kind of the schema it returns. */
  function FirstMatch(name: string): (r: Option<Kind>)
    ensures r.Some? ==> forall k :: NameMatches(k, name) <==> k == r.value
    ensures r.None? <==> forall k :: !NameMatches(k, name)
  {
    RegistryComplete();
    FirstMatchIn(Registry, name)
  }

  /** `s` is one of the true words, in any letter case, with whitespace around it. */
  ghost predicate PaddedTrueWord(s: string, pre: string, word: string, post: string) {
    s == pre + word + post && AllSpace(pre) && AllSpace(post) && Lower(word) in TrueWords
  }

  lemma SpaceIsNotLetter(c: char)
    ensures IsSpace(c) ==> LowerChar(c) == c
  {
  }

  lemma TrueWordEnds(word: string)
    requires Lower(word) in TrueWords
    ensures word != [] && !IsSpace(word[0]) && !IsSpace(word[|word| - 1])
  {
    var l := Lower(word);
    assert l == "true" || l == "yes" || l == "1";
    var first, last := word[0], word[|word| - 1];
    assert LowerChar(first) == l[0] && LowerChar(last) == l[|l| - 1];
    assert !IsSpace(l[0]) && !IsSpace(l[|l| - 1]);
    SpaceIsNotLetter(first);
    SpaceIsNotLetter(last);
  }

  /** Boolean coercion is true exactly for "true", "yes" or "1", in any letter
      case and with any surrounding whitespace; every other string is false. */
  lemma BoolStringAccepts(s: string)
    ensures ParseBoolString(s) <==> exists pre, word, post :: PaddedTrueWord(s, pre, word, post)
  {
    if ParseBoolString(s) {
      var pre, post := StripSplits(s);
      assert PaddedTrueWord(s, pre, Strip(s), post);
    }
    if exists pre, word, post :: PaddedTrueWord(s, pre, word, post) {
      var pre, word, post :| PaddedTrueWord(s, pre, word, post);
      TrueWordEnds(word);
      StripPadded(pre, word, post);
    }
  }

  /** Letter case does not matter: "True" and "TRUE" are true. */
  lemma BoolStringMixedCase()
    ensures ParseBoolString("True") && ParseBoolString("TRUE")
  {
    assert ParseBoolString("True") by {
      var l := Lower("True");
      assert l[0] == 't' && l[1] == 'r' && l[2] == 'u' && l[3] == 'e';
      assert l == "true";
      WordAccepted("True");
    }
    assert ParseBoolString("TRUE") by {
      var l := Lower("TRUE");
      assert l[0] == 't' && l[1] == 'r' && l[2] == 'u' && l[3] == 'e';
      assert l == "true";
      WordAccepted("TRUE");
    }
  }

  /** "yes" and "1" are true, also with whitespace around them. */
  lemma BoolStringOtherWords()
    ensures ParseBoolString("yes") && ParseBoolString("1") && ParseBoolString(" yes\t")
  {
    assert Lower("yes") == "yes" by {
      var l := Lower("yes");
      assert l[0] == 'y' && l[1] == 'e' && l[2] == 's';
    }
    WordAccepted("yes");
    assert ParseBoolString(" yes\t") by {
      PaddedWordAccepted(" ", "yes", "\t");
      assert " " + "yes" + "\t" == " yes\t";
    }
    assert Lower("1") == "1" by {
      assert Lower("1")[0] == '1';
    }
    WordAccepted("1");
  }

  /** A true word in any letter case is accepted as it stands. */
  lemma WordAccepted(word: string)
    requires Lower(word) in TrueWords
    ensures ParseBoolString(word)
  {
    PaddedWordAccepted([], word, []);
    assert [] + word + [] == word;
  }

  lemma PaddedWordAccepted(pre: string, word: string, post: string)
    requires AllSpace(pre) && AllSpace(post) && Lower(word) in TrueWords
    ensures ParseBoolString(pre + word + post)
  {
    TrueWordEnds(word);
    StripPadded(pre, word, post);
  }

  /** Words outside the true list are false, the empty string among them. */
  lemma BoolStringFalseExamples()
    ensures !ParseBoolString("no") && !ParseBoolString("0") && !ParseBoolString("false")
    ensures !ParseBoolString("garbage") && !ParseBoolString("")
  {
    StripPadded([], "no", []);
    assert [] + "no" + [] == "no";
    StripPadded([], "0", []);
    assert [] + "0" + [] == "0";
    assert Lower("0")[0] == '0';
    StripPadded([], "false", []);
    assert [] + "false" + [] == "false";
    StripPadded([], "garbage", []);
    assert [] + "garbage" + [] == "garbage";
  }

  lemma {:induction false} FirstMatchInSpec(kinds: seq<Kind>, name: string, i: nat)
    requires i < |kinds|
    requires forall a, b :: 0 <= a < b < |kinds| ==> kinds[a] != kinds[b]
    ensures FirstMatchIn(kinds, name) == Some(kinds[i])
        <==> NameMatches(kinds[i], name) && forall j :: 0 <= j < i ==> !NameMatches(kinds[j], name)
  {
    if i > 0 {
      var tail := kinds[1..];
      FirstMatchInSpec(tail, name, i - 1);
      assert tail[i - 1] == kinds[i];
      assert kinds[0] != kinds[i];
      if NameMatches(kinds[0], name) {
        assert FirstMatchIn(kinds, name) == Some(kinds[0]);
      } else {
        assert FirstMatchIn(kinds, name) == FirstMatchIn(tail, name);
        assert (forall j :: 0 <= j < i ==> !NameMatches(kinds[j], name))
          <==> (forall j :: 0 <= j < i - 1 ==> !NameMatches(tail[j], name)) by {
          forall j | 0 <= j < i - 1 ensures tail[j] == kinds[j + 1] { }
        }
      }
    } else if !NameMatches(kinds[0], name) {
      FirstMatchInNone(kinds[1..], name);
    }
  }

  lemma {:induction false} FirstMatchInNone(kinds: seq<Kind>, name: string)
    ensures FirstMatchIn(kinds, name).None? <==> forall j :: 0 <= j < |kinds| ==> !NameMatches(kinds[j], name)
    ensures FirstMatchIn(kinds, name).Some? ==> FirstMatchIn(kinds, name).value in kinds
    ensures FirstMatchIn(kinds, name).Some? ==> NameMatches(FirstMatchIn(kinds, name).value, name)
  {
    if kinds != [] {
      FirstMatchInNone(kinds[1..], name);
      assert forall j :: 1 <= j < |kinds| ==> kinds[1..][j - 1] == kinds[j];
    }
  }

  /** A section belongs to the schema at position i of the registry exactly
      when that schema matches its name and no earlier one does; it belongs to
      none exactly when no schema matches. */
  lemma FirstMatchIsFirst(name: string, i: nat)
    requires i < |Registry|
    ensures FirstMatch(name) == Some(Registry[i])
        <==> NameMatches(Registry[i], name) && forall j :: 0 <= j < i ==> !NameMatches(Registry[j], name)
    ensures FirstMatch(name).None? <==> forall j :: 0 <= j < |Registry| ==> !NameMatches(Registry[j], name)
  {
    FirstMatchInSpec(Registry, name, i);
    FirstMatchInNone(Registry, name);
  }

  /** No plain group name starts with "calendar ", so a calendar section is
      never claimed by an earlier schema. */
  lemma CalendarNeverShadowed(name: string)
    ensures FirstMatch(name) == Some(Calendar) <==> NameMatches(Calendar, name)
  {
    FirstMatchIsFirst(name, 3);
    if NameMatches(Calendar, name) {
      assert |Lower(name)| >= 9;
    }
  }
}
