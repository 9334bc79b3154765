/** The state of the ini reader after it has read a file: section names in
    file order and, per section, its options in file order. The loader reads
    options from it and removes each option it consumes. */
module RawConfig {
  import opened Values

  /** The options of one section, in file order. */
  type OptionMap = seq<(string, string)>

  predicate HasKey(opts: OptionMap, key: string) {
    exists p :: p in opts && p.0 == key
  }

  /** The value stored under `key`, or None (the reader's NoOptionError). */
  function Lookup(opts: OptionMap, key: string): Option<string>
  {
    if opts == [] then None
    else if opts[0].0 == key then Some(opts[0].1)
    else Lookup(opts[1..], key)
  }

  /** The options whose names are not in `keys`, in their original order. */
  function Without(opts: OptionMap, keys: set<string>): (r: OptionMap)
    ensures |r| <= |opts|
  {
    if opts == [] then []
    else (if opts[0].0 in keys then [] else [opts[0]]) + Without(opts[1..], keys)
  }

  /** An option survives exactly when its name is not removed. */
  lemma {:induction false} WithoutMembers(opts: OptionMap, keys: set<string>)
    ensures forall p :: p in Without(opts, keys) <==> p in opts && p.0 !in keys
  {
    if opts != [] {
      WithoutMembers(opts[1..], keys);
      assert forall p :: p in opts <==> p == opts[0] || p in opts[1..];
    }
  }

  lemma {:induction false} WithoutNothing(opts: OptionMap)
    ensures Without(opts, {}) == opts
  {
    if opts != [] {
      WithoutNothing(opts[1..]);
    }
  }

  lemma {:induction false} WithoutTwice(opts: OptionMap, a: set<string>, b: set<string>)
    ensures Without(Without(opts, a), b) == Without(opts, a + b)
  {
    if opts != [] {
      WithoutTwice(opts[1..], a, b);
      var rest := Without(opts[1..], a);
      if opts[0].0 in a {
        assert Without(opts, a) == rest;
      } else {
        var w := Without(opts, a);
        assert w == [opts[0]] + rest;
        assert w[0] == opts[0] && w[1..] == rest;
        assert Without(w, b) == (if opts[0].0 in b then [] else [opts[0]]) + Without(rest, b);
      }
    }
  }

  lemma {:induction false} LookupWithout(opts: OptionMap, keys: set<string>, key: string)
    requires key !in keys
    ensures Lookup(Without(opts, keys), key) == Lookup(opts, key)
  {
    if opts != [] {
      LookupWithout(opts[1..], keys, key);
      var rest := Without(opts[1..], keys);
      if opts[0].0 !in keys {
        var w := Without(opts, keys);
        assert w == [opts[0]] + rest;
        assert w[0] == opts[0] && w[1..] == rest;
      } else {
        assert Without(opts, keys) == rest;
        assert opts[0].0 != key;
      }
    }
  }

  /** Lookup finds a value exactly when the key is present, and the value
      found is stored under that key. */
  lemma {:induction false} LookupFinds(opts: OptionMap, key: string)
    ensures Lookup(opts, key).Some? <==> HasKey(opts, key)
    ensures Lookup(opts, key).Some? ==> (key, Lookup(opts, key).value) in opts
  {
    if opts != [] {
      LookupFinds(opts[1..], key);
      assert forall p :: p in opts <==> p == opts[0] || p in opts[1..];
    }
  }

  /** No option name occurs twice in a section. */
  predicate DistinctKeys(opts: OptionMap) {
    forall i, j :: 0 <= i < j < |opts| ==> opts[i].0 != opts[j].0
  }

  lemma DistinctKeysTail(opts: OptionMap)
    requires DistinctKeys(opts) && opts != []
    ensures DistinctKeys(opts[1..])
    ensures forall p :: p in opts[1..] ==> p.0 != opts[0].0
  {
    var rest := opts[1..];
    forall i, j | 0 <= i < j < |rest| ensures rest[i].0 != rest[j].0 {
      assert rest[i] == opts[i + 1] && rest[j] == opts[j + 1];
    }
    forall p | p in rest ensures p.0 != opts[0].0 {
      var k :| 0 <= k < |rest| && rest[k] == p;
      assert opts[k + 1] == p;
    }
  }

  lemma DistinctKeysCons(head: (string, string), rest: OptionMap)
    requires DistinctKeys(rest) && forall p :: p in rest ==> p.0 != head.0
    ensures DistinctKeys([head] + rest)
  {
    var r := [head] + rest;
    forall i, j | 0 <= i < j < |r| ensures r[i].0 != r[j].0 {
      assert r[j] == rest[j - 1];
      if i > 0 {
        assert r[i] == rest[i - 1];
      } else {
        assert rest[j - 1] in rest;
      }
    }
  }

  /** Removing options keeps the remaining names distinct. */
  lemma {:induction false} WithoutDistinct(opts: OptionMap, keys: set<string>)
    requires DistinctKeys(opts)
    ensures DistinctKeys(Without(opts, keys))
  {
    if opts != [] {
      var head, rest := opts[0], opts[1..];
      DistinctKeysTail(opts);
      WithoutDistinct(rest, keys);
      if head.0 !in keys {
        WithoutMembers(rest, keys);
        DistinctKeysCons(head, Without(rest, keys));
      }
    }
  }

  /** What the reader guarantees: section names are distinct, each has its
      options, and no option name occurs twice in a section (a strict reader
      rejects such a file, a lenient one keeps only the last value). */
  predicate WellFormed(names: seq<string>, options: map<string, OptionMap>) {
    && (forall i, j :: 0 <= i < j < |names| ==> names[i] != names[j])
    && (forall n :: n in names ==> n in options)
    && (forall n :: n in options ==> n in names)
    && (forall n :: n in options ==> DistinctKeys(options[n]))
  }

  class RawConfigParser {
    const names: seq<string>
    var options: map<string, OptionMap>

    ghost predicate Valid()
      reads this
    {
      WellFormed(names, options)
    }

    constructor (names: seq<string>, options: map<string, OptionMap>)
      requires WellFormed(names, options)
      ensures Valid()
      ensures this.names == names && this.options == options
    {
      this.names := names;
      this.options := options;
    }

    /** RawConfigParser.get: the value, or None where it raises NoOptionError. */
    function Get(section: string, option: string): Option<string>
      reads this
      requires section in options
    {
      Lookup(options[section], option)
    }

    /** RawConfigParser.remove_option. */
    method RemoveOption(section: string, option: string)
      requires Valid() && section in options
      modifies this
      ensures Valid()
      ensures options == old(options)[section := Without(old(options)[section], {option})]
    {
      WithoutDistinct(options[section], {option});
      options := options[section := Without(options[section], {option})];
    }
  }
}
