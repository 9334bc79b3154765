/** The calendar filter of main_khal: which parsed calendars are opened,
    given the names listed with -a (only these) and -d (all but these). */
module Selection {
  import opened Values

  /** `cal.name in names`: calendar names are strings, so a name of any
      other type is in no list of arguments. */
  predicate Listed(name: Value, names: seq<string>) {
    name.Str? && name.s in names
  }

  /** The condition in main_khal for keeping a calendar: nothing is kept
      once both lists are given. */
  predicate Keep(name: Value, add: seq<string>, drop: seq<string>)
    ensures Keep(name, add, drop) ==> add == [] || drop == []
  {
    (Listed(name, add) && drop == []) || (!Listed(name, drop) && add == [])
  }

  predicate Named(cals: seq<Namespace>) {
    forall c :: c in cals ==> "name" in c
  }

  /** The calendars kept, in their original order. */
  function Select(cals: seq<Namespace>, add: seq<string>, drop: seq<string>): (r: seq<Namespace>)
    requires Named(cals)
    ensures |r| <= |cals|
    ensures forall c :: c in r ==> c in cals
  {
    if cals == [] then []
    else (if Keep(cals[0]["name"], add, drop) then [cals[0]] else []) + Select(cals[1..], add, drop)
  }

  /** Selecting from two runs of calendars selects from each and keeps the
      first run's choices before the second's. */
  lemma {:induction false} SelectAppend(left: seq<Namespace>, right: seq<Namespace>, add: seq<string>, drop: seq<string>)
    requires Named(left) && Named(right)
    ensures Named(left + right)
    ensures Select(left + right, add, drop) == Select(left, add, drop) + Select(right, add, drop)
  {
    assert forall c :: c in left + right <==> c in left || c in right;
    if left != [] {
      assert (left + right)[0] == left[0] && (left + right)[1..] == left[1..] + right;
      SelectAppend(left[1..], right, add, drop);
    } else {
      assert left + right == right;
    }
  }

  /** A calendar is kept exactly when it is one of the given calendars and
      the condition holds for its name. */
  lemma {:induction false} SelectMembers(cals: seq<Namespace>, add: seq<string>, drop: seq<string>)
    requires Named(cals)
    ensures forall c :: c in Select(cals, add, drop) <==> c in cals && Keep(c["name"], add, drop)
  {
    if cals != [] {
      SelectMembers(cals[1..], add, drop);
      assert forall c :: c in cals <==> c == cals[0] || c in cals[1..];
    }
  }

  /** Without -a and -d every calendar is kept. */
  lemma {:induction false} SelectAll(cals: seq<Namespace>)
    requires Named(cals)
    ensures Select(cals, [], []) == cals
  {
    if cals != [] {
      SelectAll(cals[1..]);
    }
  }

  /** With both -a and -d given no calendar is kept. */
  lemma {:induction false} SelectNone(cals: seq<Namespace>, add: seq<string>, drop: seq<string>)
    requires Named(cals) && add != [] && drop != []
    ensures Select(cals, add, drop) == []
  {
    if cals != [] {
      SelectNone(cals[1..], add, drop);
    }
  }

  /** With only -a, exactly the listed calendars are kept. */
  lemma SelectOnlyAdd(cals: seq<Namespace>, add: seq<string>)
    requires Named(cals) && add != []
    ensures forall c :: c in Select(cals, add, []) <==> c in cals && Listed(c["name"], add)
  {
    SelectMembers(cals, add, []);
  }

  /** With only -d (or neither), exactly the calendars not listed are kept. */
  lemma SelectOnlyDrop(cals: seq<Namespace>, drop: seq<string>)
    requires Named(cals)
    ensures forall c :: c in Select(cals, [], drop) <==> c in cals && !Listed(c["name"], drop)
  {
    SelectMembers(cals, [], drop);
  }

  /** The loop of main_khal over conf.calendars, appending the kept ones to
      the collection. */
  method SelectCalendars(cals: seq<Namespace>, add: seq<string>, drop: seq<string>) returns (kept: seq<Namespace>)
    requires Named(cals)
    ensures kept == Select(cals, add, drop)
  {
    kept := [];
    for i := 0 to |cals|
      invariant Named(cals[..i])
      invariant kept == Select(cals[..i], add, drop)
    {
      var cal := cals[i];
      assert cals[..i + 1] == cals[..i] + [cal];
      assert Select([cal], add, drop) == if Keep(cal["name"], add, drop) then [cal] else [];
      SelectAppend(cals[..i], [cal], add, drop);
      if Keep(cal["name"], add, drop) {
        kept := kept + [cal];
      }
    }
    assert cals[..|cals|] == cals;
  }
}
