/** Values shared by every part of the configuration loader. */
module Values {

  datatype Option<T> = None | Some(value: T)

  /** The Python values a parsed option can hold: a bool, a string, an int,
      a time zone object (named by the zone it resolved to), or None. */
  datatype Value = Bool(b: bool) | Str(s: string) | Int(i: int) | Zone(zone: string) | Null

  /** A parsed section: option name to typed value (the source's Namespace). */
  type Namespace = map<string, Value>

  /** What the loader writes to its logger. */
  datatype Message =
    | CannotRead
    | CannotParse
    | MissingOption(option: string, section: string)
    | InvalidCommand(command: string)
    | UnknownSection(section: string)
    | MissingSection(group: string)
    | UnknownOption(option: string, section: string)
    | InvalidCalendar(name: Value)

  /** The foreign code the loader calls: pytz.timezone (None when it raises),
      int() on a string (None when it raises), os.path.expandvars,
      os.path.expanduser, and the XDG cache directory. */
  datatype Host = Host(
    timezone: string -> Option<string>,
    toInt: string -> Option<int>,
    expandVars: string -> string,
    expandUser: string -> string,
    cacheHome: string)

  /** Either an exception escaped (raised by the filter of `option` while
      parsing `section`), or the computation returned a value. */
  datatype Outcome<T> = Raised(option: string, section: string) | Done(value: T)

  /** A result together with the messages logged while computing it. */
  datatype Logged<T> = Logged(value: T, log: seq<Message>)
}
