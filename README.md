# khal configuration loader, modelled in Dafny

This project models the loader khal uses for its configuration file (`khal/cli.py`). It states the loader's behaviour as contracts and lemmas, and proves them. The loader's steps are:

- An INI reader yields section names in file order, each with its options.
- Every section is handed to the first of four schemas whose name test accepts it. The schemas are `[default]`, `[locale]`, `[sqlite]` and `[calendar <name>]`, tried in that order.
- Parsing a section visits each field of its schema in order:
  - A present option is passed through the field's filter.
  - An absent option gets its default, which is not filtered.
  - An absent option without a default is reported, and the section fails.
  - Either way, the option is removed from the raw section.
- Calendar sections are appended to a list. The other schemas overwrite their group. A failed section only sets a flag, and the scan goes on.
- After the scan, the loader reports the required groups that are missing (`default`, `locale`, `calendars`). It then warns about every option that no schema consumed.
- `validate` resolves `default_calendar`. `main_khal` then keeps the calendars selected by `-a` / `-d`.

Modules, one file each:

- `Values`: the value types.
  - The Python values a parsed option can hold.
  - Parsed sections, as maps.
  - The messages the loader logs.
  - `Outcome`: either a value was returned, or an exception escaped.
  - `Host`: the foreign functions the loader calls.
- `Text`: ASCII lower-casing and whitespace stripping, with lemmas about `Strip`.
- `RawConfig`: the reader's state, held in the `RawConfigParser` class. It has section names and a map of option lists; `Get` reads an option and `RemoveOption` removes one.
- `Schema`: the four kinds, their fields, filters and name tests, first-match lookup, and boolean coercion.
- `Sections`: `ParseFields`, which specifies one run of `Section.parse`, and its lemmas. Also the `Section` class, whose `Matches` and `Parse` methods update the instance's parsed values and the shared reader in place.
- `SectionKinds`: what parsing each of the four kinds yields.
- `Scanning`: the scan loop of `parse_config`. It is written once, for any function that hands a section to a schema. This module also has the required-group report and the leftover warnings.
- `Assembler`: the registry of schemas, plugged into the scan, and `ConfigOf`, the specification of `parse_config`. Also the `ConfigParser` class, whose `ParseConfig` method is proved equal to `ConfigOf`.
- `Validation`: `validate`, both as a function on values and as a method that updates a `Configuration` object in place.
- `Selection`: the calendar filter of `main_khal`, as a loop proved against `Select`.

The foreign calls are fields of the `Host` parameter, and their results are not interpreted:

- `pytz.timezone` and `int()` return an `Option`; `None` stands for the exception they raise.
- `os.path.expandvars`, `os.path.expanduser` and the XDG cache directory are plain functions.

Three behaviours of the code that are easy to misread:

- **Bad `default_command`.** An unknown `default_command` does not fail the `[default]` section. `_parse_commands` logs an error and returns `None`, and `None` is stored (`khal/cli.py:213-221`).
- **Filter exceptions.** An exception raised by a filter is not folded into the section's failure. `Section.parse` catches only `ConfigParserError` (`khal/cli.py:181`), so an unknown time zone or a non-numeric `firstweekday` escapes `parse_config`. In the model this is `Outcome.Raised`, and it propagates through every level.
- **Required `[locale]` options.** The `[locale]` schema has seven required options: five format strings and two time zones (`khal/cli.py:258-264`).

## Model

| member | source | states |
|---|---|---|
| Schema.SchemasDistinct | khal/cli.py:224-278 | No schema lists the same option twice. |
| Schema.ParseBoolString | khal/cli.py:200-207 | `_parse_bool_string` accepts "true", "yes" and "1" as they stand; a string it accepts has one to four characters once stripped. |
| Schema.ApplyFilter | khal/cli.py:200-221 | Applying a field's filter: only the time-zone and integer filters can raise, only the command filter logs (one invalid-command error, with the value None), and the boolean filter always yields a bool. |
| Schema.BoolStringAccepts | khal/cli.py:200-207 | `_parse_bool_string` is true exactly when the text is "true", "yes" or "1" in any letter case with whitespace around it, and false for every other string; it never raises. |
| Schema.WordAccepted | khal/cli.py:203-205 | A true word in any letter case is accepted. |
| Schema.PaddedWordAccepted | khal/cli.py:203-205 | A true word surrounded by whitespace is accepted. |
| Schema.BoolStringMixedCase | khal/cli.py:203-205 | "True" and "TRUE" are true. |
| Schema.BoolStringOtherWords | khal/cli.py:203-205 | "yes", "1" and " yes\t" are true. |
| Schema.BoolStringFalseExamples | khal/cli.py:204-207 | "no", "0", "false", "garbage" and the empty string are false. |
| Schema.NameMatches | khal/cli.py:162-241 | The name tests of the four schemas exclude each other: a name a plain group accepts is not a calendar name and is no other group's name. |
| Schema.FirstMatch | khal/cli.py:288-293 | `_get_section_parser` returns the only schema whose name test accepts the section, and None exactly when no schema accepts it. |
| Schema.FirstMatchInSpec | khal/cli.py:288-293 | Lookup over a list of schemas returns the i-th kind exactly when it matches and no earlier kind does. |
| Schema.FirstMatchInNone | khal/cli.py:288-293 | Lookup returns nothing exactly when no kind in the list matches. |
| Schema.FirstMatchIsFirst | khal/cli.py:282-293 | `_get_section_parser` picks the first schema in the order default, locale, sqlite, calendar whose name test accepts the section, and None when none does. |
| Schema.CalendarNeverShadowed | khal/cli.py:237-241 | A section is handled as a calendar exactly when its name starts with "calendar " in any letter case: no earlier schema can claim such a name. |
| Sections.ParseField | khal/cli.py:174-189 | One iteration raises only on a present option; otherwise the option gets a value, the earlier log is kept, and the failure flag is set exactly when the option is required and absent. |
| Sections.ParseFields | khal/cli.py:173-194 | An exception that escapes the loop names this section; a finished loop keeps the values and messages from before it and never clears the failure flag. |
| Sections.ParseFieldsRaises | khal/cli.py:173-181 | Parsing raises exactly when a present option's filter raises, and the exception names the first such option in schema order, in this section. |
| Sections.ParseFieldsConsumes | khal/cli.py:173-189 | After parsing, exactly the schema's options are gone from the raw section; the other options keep their order. |
| Sections.ParseFieldsValues | khal/cli.py:177-187 | Every schema option gets a value: the filtered raw value when present, the unfiltered default when absent. Values parsed before the loop under other names are kept. |
| Sections.ParseFieldsFailed | khal/cli.py:182-194 | The section fails exactly when some required option is absent. |
| Sections.ParseFieldsMissing | khal/cli.py:182-186 | Every absent required option is reported, even after the first one, and no other option is reported as missing. |
| Sections.MissingStep | khal/cli.py:176-189 | One field reports itself as missing exactly when it is required and absent. |
| Sections.ParseFieldsLogKinds | khal/cli.py:173-194 | Parsing a section logs only missing options and invalid commands. |
| Sections.Section.constructor | khal/cli.py:156-160 | A new instance holds its kind, the shared reader, its kind's schema and an empty parsed map. |
| Sections.Section.Matches | khal/cli.py:162-241 | The name test of the instance's kind; a calendar instance that matches records the captured name among its parsed values. |
| Sections.Section.ParseOption | khal/cli.py:174-189 | One iteration of the parse loop changes the parsed values, the raw section, the failure flag and the log as `ParseField` does, or raises as it does. |
| Sections.Section.Parse | khal/cli.py:168-194 | The result (None when failed), the log, the parsed values and what is left of the raw section are those of `ParseFields`; a raised filter error leaves the method. |
| SectionKinds.SectionRaises | khal/cli.py:173-181 | A section of any kind raises exactly when one of its schema's present options has a raising filter. |
| SectionKinds.SectionConsumes | khal/cli.py:180-189 | A parsed section loses exactly its schema's options. |
| SectionKinds.SectionValues | khal/cli.py:177-187 | A parsed section holds the captured name (calendars) and one value per schema option. |
| SectionKinds.SectionFailure | khal/cli.py:182-194 | A section fails exactly when an option without a default is absent, and exactly those options are reported. |
| SectionKinds.DefaultSectionNeverFails | khal/cli.py:271-278 | `[default]` never raises and never fails. |
| SectionKinds.DefaultSectionValues | khal/cli.py:271-278 | `[default]` holds `debug` (coerced, default false), `default_command` (the command, `None` when unknown, default "calendar"), and `default_calendar` (the raw string or the sentinel True). |
| SectionKinds.DefaultSectionLog | khal/cli.py:213-221 | `[default]` logs one invalid-command error exactly when `default_command` is present and not a known command, and nothing else. |
| SectionKinds.SQLiteSectionNeverFails | khal/cli.py:244-251 | `[sqlite]` never raises, fails or logs; its `path` is the expanded value or, when absent, `khal/khal.db` under the cache directory. |
| SectionKinds.LocaleRequiredWithin | khal/cli.py:254-268 | Every required `[locale]` option is one of the seven named ones. |
| SectionKinds.LocaleRequiredAt | khal/cli.py:258-264 | The i-th of the seven named options is a required `[locale]` option. |
| SectionKinds.LocaleRequiredCovered | khal/cli.py:254-268 | Each of the seven named options is required in `[locale]`. |
| SectionKinds.FallibleFilter | khal/cli.py:209-211 | Only the time-zone and integer filters can raise. |
| SectionKinds.LocaleFallibleFields | khal/cli.py:257-265 | In `[locale]` the fields with such a filter are `local_timezone`, `default_timezone` and `firstweekday`. |
| SectionKinds.LocaleSectionRaises | khal/cli.py:254-268 | `[locale]` raises exactly when one of those three options is present and its filter raises. |
| SectionKinds.LocaleSectionFailure | khal/cli.py:254-268 | `[locale]` fails exactly when one of the seven required options is absent, and exactly those are reported. |
| SectionKinds.LocaleSectionDefaults | khal/cli.py:265-267 | Absent `encoding`, `firstweekday` and `unicode_symbols` become "utf-8", 0 and True. |
| SectionKinds.CalendarSectionFailure | khal/cli.py:228-232 | A calendar section never raises; it fails exactly when `path` is absent, and only `path` is reported missing. |
| SectionKinds.FieldParsed | khal/cli.py:177-187 | Each schema field of a parsed section holds its filtered value or default. |
| SectionKinds.CalendarOptionNames | khal/cli.py:228-232 | The calendar schema's options are `path`, `readonly` and `color`. |
| SectionKinds.CalendarSectionKeys | khal/cli.py:237-241 | A parsed calendar holds exactly `name`, `path`, `readonly` and `color`, and `name` is the text after "calendar ". |
| SectionKinds.CalendarSectionValues | khal/cli.py:228-232 | A calendar's `path` is the expanded value, `readonly` is the coerced value or false, and `color` is the raw string or "". |
| Scanning.ScanSection | khal/cli.py:308-324 | One iteration raises exactly when the section's filter raises; otherwise it keeps the raw sections' names, leaves the other sections alone, keeps the earlier log and never clears the failure flag. |
| Scanning.Scan | khal/cli.py:307-324 | A finished scan keeps the raw sections' names, the earlier log and a set failure flag. |
| Scanning.ScanRaises | khal/cli.py:307-316 | The scan raises exactly when some claimed section's filter raises, and the exception is that of the first such section in file order. |
| Scanning.ScanFailed | khal/cli.py:315-317 | The failure flag ends up set exactly when some claimed section failed; the scan does not stop there. |
| Scanning.ScanOptions | khal/cli.py:307-316 | Every visited raw section keeps what its parse left of it; the others are untouched. |
| Scanning.ScanCalendars | khal/cli.py:318-322 | Calendars are appended in file order, one per successful calendar section. |
| Scanning.ScanSlotUnchanged | khal/cli.py:323-324 | A plain group is unchanged when no section of its kind succeeds. |
| Scanning.ScanSlotLast | khal/cli.py:323-324 | A plain group holds what the last successful section of its kind parsed. |
| Scanning.ScanLog | khal/cli.py:307-324 | The scan logs only unknown sections and what claimed sections logged. |
| Scanning.ScanLogExact | khal/cli.py:307-324 | The scan's log is its initial log followed by each section's messages in file order: one warning per unknown section, and all messages of each claimed section. |
| Scanning.ScanMessagesMembers | khal/cli.py:307-324 | A message is among the sections' messages exactly when it is an unknown section's warning or was logged by a claimed section. |
| Scanning.CalendarsOfMembers | khal/cli.py:318-322 | The calendar list holds exactly the values of the successful calendar sections, and is empty exactly when there are none. |
| Scanning.PresentAfterScan | khal/cli.py:318-324 | A group is present after the scan exactly when some section of its kind succeeded. |
| Scanning.ScanSucceeds | khal/cli.py:307-333 | The scan ends unfailed with all required groups exactly when no section raises or fails and a default, a locale and a calendar section succeed. |
| Scanning.MissingReport | khal/cli.py:335-343 | `check_required` logs at most one message per required group, and only missing-group errors. |
| Scanning.MissingReportExact | khal/cli.py:335-343 | `check_required` reports exactly the groups of the absent required kinds. |
| Scanning.MissingReportRequired | khal/cli.py:335-343 | A required group is reported exactly when it is absent. |
| Scanning.OptionWarnings | khal/cli.py:347-349 | One warning per option left in a section, each naming that section. |
| Scanning.Leftovers | khal/cli.py:345-349 | `warn_leftovers` logs only unknown-option warnings, each naming one of the file's sections. |
| Scanning.OptionWarningsExact | khal/cli.py:347-349 | One section's leftover warnings name exactly its remaining options. |
| Scanning.LeftoversExact | khal/cli.py:345-349 | `warn_leftovers` warns about exactly the options left in any section, and logs nothing else. |
| Assembler.ConsumedIsRemaining | khal/cli.py:307-313 | A section that was parsed to the end lost exactly its schema's options; an unclaimed one lost nothing. |
| Assembler.RemainingOptions | khal/cli.py:307-313 | What is left of a claimed section is its options outside the schema; an unclaimed section keeps all its options. |
| Assembler.SectionLogKinds | khal/cli.py:168-194 | A claimed section logs only missing options and invalid commands. |
| Assembler.ConfigOf | khal/cli.py:295-333 | A file that cannot be read or parsed yields no configuration and one message; a returned configuration has a default, a locale and a calendars group. |
| Assembler.ConfigOfRaises | khal/cli.py:295-333 | `parse_config` raises exactly when the file was read and some claimed section's filter raised. |
| Assembler.ConfigOfSucceeds | khal/cli.py:326-333 | `parse_config` returns a configuration exactly when the file was read, no section raised or failed, and a default, a locale and at least one calendar section succeeded. |
| Assembler.ConfigOfCalendars | khal/cli.py:318-322 | The configuration's calendars are the successful calendar sections, in file order. |
| Assembler.ConfigOfSlot | khal/cli.py:323-324 | Each plain group of the configuration holds the last successful section of its kind. |
| Assembler.ConfigOfMissing | khal/cli.py:335-343 | The log reports a missing required group exactly when no section of that kind succeeded. |
| Assembler.ConfigOfLogPrefix | khal/cli.py:307-333 | The log of `parse_config` begins with every section's messages, in file order. |
| Assembler.ConfigOfUnknown | khal/cli.py:309-313 | `parse_config` warns about a section as unknown exactly when it is one of the file's sections and no schema claims it. |
| Assembler.ConfigOfSectionLogs | khal/cli.py:314-324 | Every message a claimed section logs reaches the log of `parse_config`. |
| Assembler.ConfigOfLeftovers | khal/cli.py:345-349 | The log warns about exactly the options nobody consumed: every option of an unclaimed section and the unknown ones of a claimed section. |
| Assembler.ConfigParser.GetSectionParser | khal/cli.py:288-293 | Returns a fresh instance of the first matching schema, sharing the loader's reader and already holding the captured calendar name; returns null when no schema matches. |
| Assembler.ConfigParser.CheckRequired | khal/cli.py:335-343 | The flag is set exactly when some required group is absent, and the log is the missing-group report. |
| Assembler.ConfigParser.WarnOptions | khal/cli.py:347-349 | One warning per option left in a section, in file order. |
| Assembler.ConfigParser.WarnLeftovers | khal/cli.py:345-349 | The warnings, section by section, for every option left in the reader. |
| Assembler.ConfigParser.VisitSection | khal/cli.py:307-324 | One iteration of the scan updates the groups, the flag, the log and the reader as `ScanSection` does, or raises as it does. |
| Assembler.ConfigParser.ParseConfig | khal/cli.py:295-333 | The imperative loader returns exactly `ConfigOf`: the configuration or None, with the log, or the escaped filter exception. |
| Validation.Validated | khal/cli.py:373-389 | `validate` accepts exactly when `default_calendar` is the sentinel or names a calendar. It logs one error when it rejects and nothing when it accepts. An accepted configuration's default calendar names one of its calendars. |
| Validation.ValidatedChangesOnlyDefault | khal/cli.py:378-380 | `validate` changes nothing but `default_calendar`, and only the sentinel, which becomes the first calendar's name. |
| Validation.ValidatedIdempotent | khal/cli.py:373-389 | Validating an accepted configuration again accepts it unchanged. |
| Validation.DefaultSucceeded | khal/cli.py:271-278 | A successful `[default]` section holds `default_calendar`, which is the sentinel or a string. |
| Validation.CalendarSucceeded | khal/cli.py:237-241 | A successful calendar section holds its name, taken from the section title. |
| Validation.ConfigOfReady | khal/cli.py:373-383 | Every configuration `parse_config` returns has what `validate` reads: a default calendar and a non-empty list of calendars named by strings. |
| Validation.Configuration.Validate | khal/cli.py:373-389 | The in-place `validate` returns the configuration or null, logs and updates `default_calendar` as `Validated` says. |
| Selection.Keep | khal/cli.py:421-422 | The condition for keeping a calendar never holds when both `-a` and `-d` are given. |
| Selection.Select | khal/cli.py:420-422 | The kept calendars are some of the parsed ones, never more. |
| Selection.SelectAppend | khal/cli.py:419-422 | Selection keeps the calendars' relative order: selecting from a concatenation concatenates the selections. |
| Selection.SelectMembers | khal/cli.py:420-422 | A calendar is kept exactly when its name is listed in `-a` and `-d` is empty, or its name is not listed in `-d` and `-a` is empty. |
| Selection.SelectAll | khal/cli.py:420-422 | With neither `-a` nor `-d`, every calendar is kept, in order. |
| Selection.SelectNone | khal/cli.py:420-422 | With both `-a` and `-d`, no calendar is kept. |
| Selection.SelectOnlyAdd | khal/cli.py:420-422 | With only `-a`, exactly the listed calendars are kept. |
| Selection.SelectOnlyDrop | khal/cli.py:420-422 | With no `-a`, exactly the calendars not listed in `-d` are kept. |
| Selection.SelectCalendars | khal/cli.py:419-432 | The loop over the calendars keeps exactly `Select`'s calendars, in order. |
| RawConfig.RawConfigParser.RemoveOption | khal/cli.py:189 | Removing an option drops every entry under that name from one section, changes nothing else, and keeps the reader well formed. |
| RawConfig.WithoutDistinct | khal/cli.py:189 | Removing options keeps a section's option names distinct. |

## Left out

- Command-line parsing with `docopt`, and the re-dispatch to the default command (`khal/cli.py:400-406`, `434-442`). This is a foreign library.
- The controllers and the printing of calendars (`khal/cli.py:444-465`). This is user interface and I/O.
- `capture_user_interruption` and `setproctitle`. These are signal and process plumbing.
- `_find_configuration_file`. It probes the filesystem.
- `RawConfigParser.read`. Its result is a parameter (`ReadResult`):
  - the file could not be read;
  - the file has a syntax error;
  - otherwise, distinct section names in file order, each with its options in file order and no option name twice in a section. A strict reader rejects a repeated option, and a lenient one keeps only its last value.
- Inside the reader, the model does not include the `DEFAULT` section inheritance or the lower-casing of option names (`optionxform`). Option keys arrive already normalised.
- `pytz.timezone`, `int()`, `expandvars`, `expanduser` and the XDG cache directory are uninterpreted fields of `Host`.
- `dump` and the logger's levels and formatting. When `parse_config` returns, its log is modelled as a list of `Message` values, in the order the loader emits them.
- When a filter exception escapes (`Outcome.Raised`), the result carries only the option and the section. The messages logged before the exception are not part of it. For example, a file with an unknown section followed by a `[locale]` section whose time zone is unknown has logged the unknown-section warning before the exception; the model's `Raised` does not record that warning.
- The attribute access of `Namespace`. Parsed sections are maps from option name to value.
- The `schema is None` branch of `Section.parse`. Each of the four schemas sets a schema in its constructor, so this branch never runs.
- String operations follow Python 3's `str`. `Text.IsSpace` is `str.isspace` on Unicode text, so `strip()` in the boolean filter removes Unicode whitespace. Under Python 2, `strip()` on a byte string removes only ASCII whitespace: for example `"\x1cyes"` coerces to false there but to true in the model.
- `Text.Lower` lower-cases ASCII letters only. Python's `str.lower` and `re.I` work on all of Unicode. `str.lower` maps only two non-ASCII characters to text containing ASCII letters: the Kelvin sign (to `k`, which no group name contains) and `İ` (to `i` followed by a combining dot, so the result is never a group name). Under `re.I`, no non-ASCII character matches a letter of "calendar ". So the name tests agree.
- `Schema.CalendarName` takes the whole text after "calendar ". The source's `.*` stops at a newline, which a section name cannot contain.
- `Sections.Section.Parse`: when a filter raises, the model promises nothing about the state the instance and the reader are left in. The exception leaves the loader.
- `Assembler.ConfigParser.ParseConfig` states only its result. What is left in the reader afterwards is stated about `ConfigOf` (`Assembler.ConfigOfLeftovers`).
- `Validation.Configuration.Validate` requires a default group with `default_calendar`, and at least one calendar, each with a name. The source reads these without checking them. `Validation.ConfigOfReady` proves that every configuration `parse_config` returns meets this requirement.
- Calling `validate` with `None`, which the source does when `parse_config` fails, is not modelled. It would raise.
- `Selection.Listed` treats a calendar name that is not a string as listed nowhere. Every parsed calendar name is a string (`Validation.ConfigOfReady`).
- The `khalendar.Calendar` objects built from the selected calendars are not modelled. `SelectCalendars` returns the selected parsed sections.
