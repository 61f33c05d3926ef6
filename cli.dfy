/**
 * The `CLI` builder: a schema of options (with the built-in `help` and
 * `version` entries first), registered commands and package information,
 * the resolution of a tokenized argument bag against the schema, and the
 * decision between help, version and running a command.
 */
module Cli {
  import opened Wrappers
  import opened Js
  import opened LiteLodash

  // ---------------------------------------------------------------------------
  // Schema entries: [name, ...aliases, { default, help }?]
  // ---------------------------------------------------------------------------

  /** The trailing options object of a schema entry. */
  datatype EntryOptions = EntryOptions(dflt: Option<Value>, help: Option<string>)

  /** A schema entry: the canonical name and its aliases, then an optional options object. */
  datatype SchemaEntry = SchemaEntry(names: seq<string>, opts: Option<EntryOptions>)

  /** One element of the entry's array, as the resolver sees it. */
  datatype EntryItem = Name(name: string) | Options(options: EntryOptions)

  /** The entry as the array the source stores. */
  function Items(e: SchemaEntry): (r: seq<EntryItem>)
    ensures |r| == |e.names| + (if e.opts.Some? then 1 else 0)
    ensures forall i | 0 <= i < |e.names| :: r[i] == Name(e.names[i])
    ensures e.opts.Some? ==> r[|r| - 1] == Options(e.opts.value)
  {
    seq(|e.names|, i requires 0 <= i < |e.names| => Name(e.names[i])) +
    (if e.opts.Some? then [Options(e.opts.value)] else [])
  }

  /** An entry with neither a name nor an options object: reading its default throws a TypeError. */
  predicate IsEmptyEntry(e: SchemaEntry)
  {
    e.names == [] && e.opts.None?
  }

  /**
   * `const { default: defaultVal } = last(option)`. Destructuring the
   * `undefined` that `last` gives for an empty entry throws (None); a
   * trailing name is a string, which has no `default` property.
   */
  function DefaultOf(e: SchemaEntry): (r: Option<Value>)
    ensures r.None? <==> IsEmptyEntry(e)
    ensures e.opts.Some? ==> r == Some(e.opts.value.dflt.GetOr(Undefined))
    ensures e.opts.None? && e.names != [] ==> r == Some(Undefined)
  {
    var last: Option<EntryItem> := Last(Items(e));
    match last
    case None => None
    case Some(Options(o)) => Some(o.dflt.GetOr(Undefined))
    case Some(Name(_)) => Some(Undefined)
  }

  /**
   * `const [normalizedKey] = option`: the canonical name. An entry that is
   * only an options object is keyed by that object, which converts to
   * "[object Object]".
   */
  function Key(e: SchemaEntry): (r: string)
    ensures e.names != [] ==> r == e.names[0]
    ensures e.names == [] ==> r == "[object Object]"
  {
    if e.names != [] then e.names[0] else "[object Object]"
  }

  /**
   * The built-in entries every schema starts with: `help` (also `h`, `docs`
   * and 帮助) and `version` (also `v`), both defaulting to `false`.
   */
  function DefaultSchema(): (r: seq<SchemaEntry>)
    ensures |r| == 2 && Key(r[0]) == "help" && Key(r[1]) == "version"
    ensures "h" in r[0].names && "docs" in r[0].names && "v" in r[1].names
    ensures DefaultOf(r[0]) == Some(Bool(false)) && DefaultOf(r[1]) == Some(Bool(false))
  {
    var help := SchemaEntry(["help", "h", "docs", "\U{5E2E}\U{52A9}"],
                            Some(EntryOptions(Some(Bool(false)), Some("Show this help information."))));
    var version := SchemaEntry(["version", "v"],
                               Some(EntryOptions(Some(Bool(false)), Some("Show the version information."))));
    assert help.names[1] == "h" && help.names[2] == "docs" && version.names[1] == "v";
    [help, version]
  }

  // ---------------------------------------------------------------------------
  // parseAgainstSchema
  // ---------------------------------------------------------------------------

  /**
   * `CLI.toBoolean`: a boolean is itself, a string is true only as "true" or
   * "", and anything else is false.
   */
  predicate ToBoolean(target: Value)
    ensures target.Bool? ==> (ToBoolean(target) <==> target.b)
    ensures target.Str? ==> (ToBoolean(target) <==> target.s == "true" || target.s == "")
    ensures !target.Bool? && !target.Str? ==> !ToBoolean(target)
  {
    target == Bool(true) || target == Str("true") || target == Str("")
  }

  /**
   * What the tokenizer hands over: its keys with their values, in the order
   * `Object.keys` lists them, and the positional arguments.
   */
  datatype Bag = Bag(entries: seq<(string, Value)>, positionals: seq<string>)

  /** The index of the first bag key that is one of `names`. */
  function FindKey(entries: seq<(string, Value)>, names: seq<string>): (r: Option<nat>)
    decreases |entries|
    ensures r.Some? ==>
      r.value < |entries| && entries[r.value].0 in names &&
      forall j | 0 <= j < r.value :: entries[j].0 !in names
    ensures r.None? ==> forall j | 0 <= j < |entries| :: entries[j].0 !in names
  {
    if entries == [] then None
    else if entries[0].0 in names then Some(0)
    else
      match FindKey(entries[1..], names)
      case None => None
      case Some(k) => Some(k + 1)
  }

  /** `parsedEntries[key]`: the value of the first entry with that key, `undefined` when none has it. */
  function Property(entries: seq<(string, Value)>, key: string): (r: Value)
    ensures (forall j | 0 <= j < |entries| :: entries[j].0 != key) ==> r == Undefined
    ensures forall i | 0 <= i < |entries| && entries[i].0 == key && (forall j | 0 <= j < i :: entries[j].0 != key) ::
      r == entries[i].1
  {
    match FindKey(entries, [key])
    case Some(i) =>
      assert forall j | 0 <= j < i :: entries[j].0 != key by {
        assert forall j | 0 <= j < i :: entries[j].0 !in [key];
      }
      entries[i].1
    case None => Undefined
  }

  /**
   * The raw value found for an entry: the value of the first bag key among
   * its names, or `unmatched` when no key matches.
   */
  function RawValue(entries: seq<(string, Value)>, names: seq<string>, unmatched: Value): (r: Value)
    ensures forall i | 0 <= i < |entries| && entries[i].0 in names ::
      (forall j | 0 <= j < i :: entries[j].0 !in names) ==> r == entries[i].1
    ensures (forall j | 0 <= j < |entries| :: entries[j].0 !in names) ==> r == unmatched
  {
    match FindKey(entries, names)
    case Some(i) => entries[i].1
    case None => unmatched
  }

  /**
   * The value an entry resolves to from its raw value: the default when the
   * raw value is `undefined`; otherwise the raw value, through `toBoolean`
   * exactly when the default is a boolean.
   */
  function Coerce(raw: Value, dflt: Value): (r: Value)
    ensures raw.Undefined? ==> r == dflt
    ensures !raw.Undefined? && dflt.Bool? ==> r == Bool(ToBoolean(raw))
    ensures !raw.Undefined? && !dflt.Bool? ==> r == raw
    ensures dflt.Bool? ==> r.Bool?
  {
    if raw.Undefined? then dflt
    else if dflt.Bool? then Bool(ToBoolean(raw))
    else raw
  }

  /** One step of the `reduce`: the entry's resolved value, or None when reading its default throws. */
  function ResolveEntry(e: SchemaEntry, bag: Bag, unmatched: Value): (r: Option<Value>)
    ensures r.None? <==> IsEmptyEntry(e)
  {
    match DefaultOf(e)
    case None => None
    case Some(d) => Some(Coerce(RawValue(bag.entries, e.names, unmatched), d))
  }

  /**
   * The `reduce` over the schema, entries in order, each one setting its
   * key; `unmatched` is what the lookup yields for an entry none of whose
   * names is a bag key. None when an entry throws.
   */
  function Resolve(schema: seq<SchemaEntry>, bag: Bag, unmatched: Value): (r: Option<map<string, Value>>)
    decreases |schema|
    ensures r.None? <==> HasEmptyEntry(schema)
  {
    if schema == [] then Some(map[])
    else
      var n := |schema| - 1;
      HasEmptyEntrySplit(schema);
      match Resolve(schema[..n], bag, unmatched)
      case None => None
      case Some(acc) =>
        match ResolveEntry(schema[n], bag, unmatched)
        case None => None
        case Some(v) => Some(acc[Key(schema[n]) := v])
  }

  /**
   * `parseAgainstSchema` as written: when no bag key matches, the lookup
   * `parsedEntries[undefined]` reads the property named "undefined".
   */
  function ParseAgainstSchemaAsWritten(schema: seq<SchemaEntry>, bag: Bag): (r: Option<map<string, Value>>)
    ensures r.None? <==> HasEmptyEntry(schema)
    ensures r.Some? ==> r.value.Keys == set e | e in schema :: Key(e)
  {
    var unmatched := Property(bag.entries, "undefined");
    if Resolve(schema, bag, unmatched).Some? then ResolveKeys(schema, bag, unmatched); Resolve(schema, bag, unmatched)
    else Resolve(schema, bag, unmatched)
  }

  /** `parseAgainstSchema` as intended: an entry no bag key matches finds nothing and takes its default. */
  function ParseAgainstSchema(schema: seq<SchemaEntry>, bag: Bag): (r: Option<map<string, Value>>)
    ensures r.None? <==> HasEmptyEntry(schema)
    ensures r.Some? ==> r.value.Keys == set e | e in schema :: Key(e)
    ensures r.Some? ==> forall i | 0 <= i < |schema| && (forall j | i < j < |schema| :: Key(schema[j]) != Key(schema[i])) ::
      Some(r.value[Key(schema[i])]) == ResolveEntry(schema[i], bag, Undefined)
  {
    if Resolve(schema, bag, Undefined).Some? then
      ResolveKeys(schema, bag, Undefined);
      forall i | 0 <= i < |schema| && (forall j | i < j < |schema| :: Key(schema[j]) != Key(schema[i]))
        ensures Key(schema[i]) in Resolve(schema, bag, Undefined).value
        ensures Some(Resolve(schema, bag, Undefined).value[Key(schema[i])]) == ResolveEntry(schema[i], bag, Undefined)
      {
        ResolveLastWins(schema, bag, Undefined, i);
      }
      Resolve(schema, bag, Undefined)
    else Resolve(schema, bag, Undefined)
  }

  /** Some entry of the schema is empty. */
  predicate HasEmptyEntry(schema: seq<SchemaEntry>)
  {
    exists i | 0 <= i < |schema| :: IsEmptyEntry(schema[i])
  }

  /** A schema has an empty entry exactly when its prefix or its last entry is one. */
  lemma {:induction false} HasEmptyEntrySplit(schema: seq<SchemaEntry>)
    requires schema != []
    ensures HasEmptyEntry(schema) <==> HasEmptyEntry(schema[..|schema| - 1]) || IsEmptyEntry(schema[|schema| - 1])
  {
    var n := |schema| - 1;
    if HasEmptyEntry(schema[..n]) {
      var i :| 0 <= i < n && IsEmptyEntry(schema[..n][i]);
      assert IsEmptyEntry(schema[i]);
    }
    if HasEmptyEntry(schema) {
      var i :| 0 <= i < |schema| && IsEmptyEntry(schema[i]);
      if i < n {
        assert IsEmptyEntry(schema[..n][i]);
      }
    }
  }

  /** The resolved object has exactly one key per distinct canonical name. */
  lemma {:induction false} ResolveKeys(schema: seq<SchemaEntry>, bag: Bag, unmatched: Value)
    requires Resolve(schema, bag, unmatched).Some?
    ensures Resolve(schema, bag, unmatched).value.Keys == set e | e in schema :: Key(e)
    decreases |schema|
  {
    if schema != [] {
      var n := |schema| - 1;
      ResolveKeys(schema[..n], bag, unmatched);
      assert schema == schema[..n] + [schema[n]];
      assert (set e | e in schema :: Key(e)) == (set e | e in schema[..n] :: Key(e)) + {Key(schema[n])};
    }
  }

  /**
   * The entry at `i` decides the value of its canonical name unless a later
   * entry has the same canonical name: the later entry wins.
   */
  lemma {:induction false} ResolveLastWins(schema: seq<SchemaEntry>, bag: Bag, unmatched: Value, i: nat)
    requires Resolve(schema, bag, unmatched).Some?
    requires i < |schema|
    requires forall j | i < j < |schema| :: Key(schema[j]) != Key(schema[i])
    ensures var r := Resolve(schema, bag, unmatched).value;
      !IsEmptyEntry(schema[i]) && Key(schema[i]) in r &&
      Some(r[Key(schema[i])]) == ResolveEntry(schema[i], bag, unmatched)
    decreases |schema|
  {
    var n := |schema| - 1;
    var key := Key(schema[i]);
    var before := Resolve(schema[..n], bag, unmatched);
    var last := ResolveEntry(schema[n], bag, unmatched);
    assert before.Some? && last.Some?;
    assert Resolve(schema, bag, unmatched).value == before.value[Key(schema[n]) := last.value];
    if i < n {
      assert !IsEmptyEntry(schema[i]) && key in before.value &&
        Some(before.value[key]) == ResolveEntry(schema[i], bag, unmatched) by {
        assert schema[..n][i] == schema[i];
        assert forall j | i < j < n :: schema[..n][j] == schema[j];
        ResolveLastWins(schema[..n], bag, unmatched, i);
      }
      assert Key(schema[n]) != key;
    } else {
      assert Key(schema[n]) == key;
    }
  }

  /**
   * An entry none of whose names is a bag key takes its declared default,
   * which is `undefined` when it has no options object (`.option('verbose')`).
   */
  lemma {:induction false} EntryFallsBackToDefault(e: SchemaEntry, bag: Bag)
    requires !IsEmptyEntry(e)
    requires forall j | 0 <= j < |bag.entries| :: bag.entries[j].0 !in e.names
    ensures ResolveEntry(e, bag, Undefined) ==
      Some(if e.opts.Some? then e.opts.value.dflt.GetOr(Undefined) else Undefined)
  {
  }

  /**
   * An entry some name of which is a bag key takes the value of the first
   * such key, through `toBoolean` exactly when its default is a boolean:
   * without one, `--in-place=true` stays the string "true".
   */
  lemma {:induction false} EntryTakesFirstMatch(e: SchemaEntry, bag: Bag, unmatched: Value, i: nat)
    requires !IsEmptyEntry(e)
    requires i < |bag.entries| && bag.entries[i].0 in e.names
    requires forall j | 0 <= j < i :: bag.entries[j].0 !in e.names
    requires bag.entries[i].1 != Undefined
    ensures var d := DefaultOf(e).value; var v := bag.entries[i].1;
      ResolveEntry(e, bag, unmatched) == Some(if d.Bool? then Bool(ToBoolean(v)) else v)
  {
    assert FindKey(bag.entries, e.names) == Some(i);
  }

  /**
   * The result of `parse`: the resolved entries, and `_` holding the
   * positionals. Nothing when an empty entry makes resolution throw.
   */
  function Parsed(schema: seq<SchemaEntry>, bag: Bag): (r: Option<map<string, Value>>)
    ensures r.None? <==> HasEmptyEntry(schema)
    ensures r.Some? ==> r.value.Keys == (set e | e in schema :: Key(e)) + {"_"}
    ensures r.Some? ==> r.value["_"] == Arr(StrValues(bag.positionals))
    ensures r.Some? ==> forall i | 0 <= i < |schema| && Key(schema[i]) != "_" &&
                                   (forall j | i < j < |schema| :: Key(schema[j]) != Key(schema[i])) ::
      Some(r.value[Key(schema[i])]) == ResolveEntry(schema[i], bag, Undefined)
  {
    match ParseAgainstSchema(schema, bag)
    case None => None
    case Some(m) => Some(m["_" := Arr(StrValues(bag.positionals))])
  }

  /** With no arguments, a fresh CLI parses to exactly `{help: false, version: false, _: []}`. */
  lemma {:induction false} ParseNoArguments()
    ensures Parsed(DefaultSchema(), Bag([], [])) == Some(map["help" := Bool(false), "version" := Bool(false), "_" := Arr([])])
  {
    var bag := Bag([], []);
    assert DefaultSchema()[..1][..0] == [];
    assert Resolve(DefaultSchema()[..1], bag, Undefined) == Some(map["help" := Bool(false)]);
    assert Resolve(DefaultSchema(), bag, Undefined) == Some(map["help" := Bool(false), "version" := Bool(false)]);
  }

  /**
   * Without flags every canonical name gets the default of the last entry
   * that has it, and `_` is the positionals.
   */
  lemma {:induction false} NoFlagsGiveDefaults(schema: seq<SchemaEntry>, positionals: seq<string>, i: nat)
    requires i < |schema| && Key(schema[i]) != "_"
    requires forall j | 0 <= j < |schema| :: !IsEmptyEntry(schema[j])
    requires forall j | i < j < |schema| :: Key(schema[j]) != Key(schema[i])
    ensures var p := Parsed(schema, Bag([], positionals));
      p.Some? && p.value.Keys == (set e | e in schema :: Key(e)) + {"_"} &&
      p.value[Key(schema[i])] == DefaultOf(schema[i]).value &&
      p.value["_"] == Arr(StrValues(positionals))
  {
    var bag := Bag([], positionals);
    ResolveKeys(schema, bag, Undefined);
    ResolveLastWins(schema, bag, Undefined, i);
  }

  // ---------------------------------------------------------------------------
  // Commands and the dispatch decision (after / hasCmd)
  // ---------------------------------------------------------------------------

  /** A registered command. `help` and `usage` stay `undefined` when the options were not an object. */
  datatype Command = Command(name: string, handler: Value, help: Value, usage: Value)

  /** The handler a command gets when none is passed: `() => {}`. */
  const Noop: Value := Func(0)

  /** `typeof options === 'object' && options`: an object or an array, not `null`. */
  predicate IsObject(v: Value)
    ensures IsObject(v) <==> TypeOf(v) == "object" && Truthy(v)
  {
    v.Obj? || v.Arr?
  }

  /**
   * `const { key = fallback } = options` for an object-like `options`: a
   * defined property is taken, and a missing or `undefined` one gives the
   * fallback.
   */
  function PropOr(options: Value, key: string, fallback: Value): (r: Value)
    ensures options.Obj? && key in options.props && options.props[key] != Undefined ==> r == options.props[key]
    ensures !(options.Obj? && key in options.props) ==> r == fallback
    ensures options.Obj? && key in options.props && options.props[key] == Undefined ==> r == fallback
    ensures r != Undefined || fallback == Undefined
  {
    if options.Obj? && key in options.props && options.props[key] != Undefined then options.props[key]
    else fallback
  }

  /** Whether `command(cmd, ...)` registers anything: `cmd` (after its `''` default) is a non-empty string. */
  predicate Registers(cmd: Value)
    ensures Registers(cmd) <==> cmd.Str? && cmd.s != ""
  {
    var c := if cmd.Undefined? then Str("") else cmd;
    Truthy(c) && IsString(c)
  }

  /** The command `command(name, options, execute)` pushes. */
  function NewCommand(name: string, options: Value, execute: Value): (c: Command)
    ensures c.name == name
    ensures IsFunction(options) ==> c.handler == options
    ensures !IsFunction(options) && execute.Undefined? ==> c.handler == Noop
    ensures !IsFunction(options) && !execute.Undefined? ==> c.handler == execute
    ensures !IsObject(options) ==> c.help == Undefined && c.usage == Undefined
    ensures IsObject(options) ==> c.help != Undefined && c.usage != Undefined
    ensures options.Obj? && "help" in options.props && options.props["help"] != Undefined ==>
      c.help == options.props["help"]
    ensures options.Obj? && "usage" in options.props && options.props["usage"] != Undefined ==>
      c.usage == options.props["usage"]
    ensures IsObject(options) && !(options.Obj? && "help" in options.props && options.props["help"] != Undefined) ==>
      c.help == Str("")
    ensures IsObject(options) && !(options.Obj? && "usage" in options.props && options.props["usage"] != Undefined) ==>
      c.usage == Str("")
  {
    var handler := if IsFunction(options) then options else if execute.Undefined? then Noop else execute;
    if IsObject(options) then
      Command(name, handler, PropOr(options, "help", Str("")), PropOr(options, "usage", Str("")))
    else
      Command(name, handler, Undefined, Undefined)
  }

  /** The positional list stored under `_`. */
  function PositionalsOf(parsed: map<string, Value>): seq<Value>
  {
    if "_" in parsed && parsed["_"].Arr? then parsed["_"].items else []
  }

  /** `hasCmd`: the command's name is, as a whole, one of the positionals stored under `_`. */
  predicate HasCmd(parsed: map<string, Value>, c: Command)
    ensures HasCmd(parsed, c) <==> "_" in parsed && parsed["_"].Arr? && Str(c.name) in parsed["_"].items
  {
    Str(c.name) in PositionalsOf(parsed)
  }

  /** `this.commands.find(cmd => this.hasCmd(cmd))`: the first registered command that appears. */
  function FindCommand(commands: seq<Command>, parsed: map<string, Value>): (r: Option<nat>)
    decreases |commands|
    ensures r.Some? ==>
      r.value < |commands| && HasCmd(parsed, commands[r.value]) &&
      forall j | 0 <= j < r.value :: !HasCmd(parsed, commands[j])
    ensures r.None? ==> forall j | 0 <= j < |commands| :: !HasCmd(parsed, commands[j])
  {
    if commands == [] then None
    else if HasCmd(parsed, commands[0]) then Some(0)
    else
      match FindCommand(commands[1..], parsed)
      case None => None
      case Some(k) => Some(k + 1)
  }

  /**
   * What `parse` ends in. `ShowHelp` and `ShowVersion` stand for printing
   * and `process.exit(0)`; `Execute` for calling a command's handler with
   * the given options object; `HandlerTypeError` for calling a command's
   * handler that is not a function; `SchemaTypeError` for the TypeError an
   * empty schema entry raises.
   */
  datatype Outcome =
    | ShowHelp
    | ShowVersion
    | Execute(command: nat, options: map<string, Value>)
    | HandlerTypeError(command: nat)
    | Idle
    | SchemaTypeError

  /**
   * `after`: help takes precedence over version, and version over commands;
   * at most one handler runs, that of the first registered command whose
   * name is one of the positionals, and it is passed the whole parse result;
   * a handler that is not a function throws; when no name is a positional,
   * nothing runs.
   */
  function Decide(parsed: map<string, Value>, commands: seq<Command>): (o: Outcome)
    ensures o == ShowHelp <==> Truthy(Get(parsed, "help"))
    ensures o == ShowVersion <==> !Truthy(Get(parsed, "help")) && Truthy(Get(parsed, "version"))
    ensures forall i | 0 <= i < |commands| && HasCmd(parsed, commands[i]) ::
      !Truthy(Get(parsed, "help")) && !Truthy(Get(parsed, "version")) &&
      (forall j | 0 <= j < i :: !HasCmd(parsed, commands[j])) ==>
        o == if IsFunction(commands[i].handler) then Execute(i, parsed) else HandlerTypeError(i)
    ensures o.Execute? || o.HandlerTypeError? ==>
      !Truthy(Get(parsed, "help")) && !Truthy(Get(parsed, "version")) &&
      o.command < |commands| && HasCmd(parsed, commands[o.command]) &&
      (o.Execute? <==> IsFunction(commands[o.command].handler)) &&
      forall j | 0 <= j < o.command :: !HasCmd(parsed, commands[j])
    ensures o.Execute? ==> o.options == parsed
    ensures o == Idle <==>
      !Truthy(Get(parsed, "help")) && !Truthy(Get(parsed, "version")) &&
      forall j | 0 <= j < |commands| :: !HasCmd(parsed, commands[j])
    ensures !o.SchemaTypeError?
  {
    if Truthy(Get(parsed, "help")) then ShowHelp
    else if Truthy(Get(parsed, "version")) then ShowVersion
    else
      match FindCommand(commands, parsed)
      case None => Idle
      case Some(i) => if IsFunction(commands[i].handler) then Execute(i, parsed) else HandlerTypeError(i)
  }

  /** A command runs only on an exact match: `base64xyz` does not run `base64`. */
  lemma {:induction false} ExactCommandMatch(url: string)
    ensures var parsed := map["help" := Bool(false), "version" := Bool(false),
                              "_" := Arr([Str("base64xyz"), Str(url)])];
      Decide(parsed, [Command("base64", Func(1), Str(""), Str(""))]) == (if url == "base64" then Execute(0, parsed) else Idle)
  {
    var parsed := map["help" := Bool(false), "version" := Bool(false),
                      "_" := Arr([Str("base64xyz"), Str(url)])];
    assert Str("base64xyz") != Str("base64") by {
      assert "base64xyz" != "base64" by { assert |"base64xyz"| != |"base64"|; }
    }
  }

  /**
   * The bug at the lookup: with the as-written resolver a flag named
   * `undefined` becomes the value of every unmatched entry, so `--undefined`
   * alone turns `help` on, where the intended resolver keeps the defaults.
   */
  lemma {:induction false} UndefinedFlagTurnsHelpOn()
    ensures var bag := Bag([("undefined", Bool(true))], []);
      ParseAgainstSchemaAsWritten(DefaultSchema(), bag) == Some(map["help" := Bool(true), "version" := Bool(true)]) &&
      Decide(map["help" := Bool(true), "version" := Bool(true)], []) == ShowHelp &&
      ParseAgainstSchema(DefaultSchema(), bag) == Some(map["help" := Bool(false), "version" := Bool(false)])
  {
    var bag := Bag([("undefined", Bool(true))], []);
    assert "undefined" !in DefaultSchema()[0].names;
    assert "undefined" !in DefaultSchema()[1].names;
    assert FindKey(bag.entries, DefaultSchema()[0].names).None?;
    assert FindKey(bag.entries, DefaultSchema()[1].names).None?;
    assert Property(bag.entries, "undefined") == Bool(true);
    assert DefaultSchema()[..1][..0] == [];
    assert ResolveEntry(DefaultSchema()[0], bag, Bool(true)) == Some(Bool(true));
    assert ResolveEntry(DefaultSchema()[1], bag, Bool(true)) == Some(Bool(true));
    assert Resolve(DefaultSchema()[..1], bag, Bool(true)) == Some(map["help" := Bool(true)]);
    assert Resolve(DefaultSchema(), bag, Bool(true)) == Some(map["help" := Bool(true), "version" := Bool(true)]);
    assert ResolveEntry(DefaultSchema()[0], bag, Undefined) == Some(Bool(false));
    assert ResolveEntry(DefaultSchema()[1], bag, Undefined) == Some(Bool(false));
    assert Resolve(DefaultSchema()[..1], bag, Undefined) == Some(map["help" := Bool(false)]);
  }

  /** The as-written resolver agrees with the intended one on every bag without a key named "undefined". */
  lemma {:induction false} AsWrittenAgreesWithoutUndefinedKey(schema: seq<SchemaEntry>, bag: Bag)
    requires forall j | 0 <= j < |bag.entries| :: bag.entries[j].0 != "undefined"
    ensures ParseAgainstSchemaAsWritten(schema, bag) == ParseAgainstSchema(schema, bag)
  {
  }

  // ---------------------------------------------------------------------------
  // Package information and the tips derived from it
  // ---------------------------------------------------------------------------

  /** `CYAN_BRIGHT` and `EOS` of the colour constants. */
  const CyanBright: string := "\U{001B}[0;96m"
  const Eos: string := "\U{001B}[0m"

  /** The platform, architecture and Node.js version, which the source reads from `process`. */
  datatype Runtime = Runtime(platform: string, arch: string, nodeVersion: string)

  /** `${process.platform}-${process.arch} node-${process.version}`. */
  function RuntimeTips(rt: Runtime): (r: string)
    ensures |r| == |rt.platform| + |rt.arch| + |rt.nodeVersion| + 7
  {
    rt.platform + "-" + rt.arch + " node-" + rt.nodeVersion
  }

  /** Each part of the runtime can be read back from its place in the tips. */
  lemma {:induction false} RuntimeTipsParts(rt: Runtime)
    ensures var r, p, a := RuntimeTips(rt), |rt.platform|, |rt.arch|;
      r[..p] == rt.platform && r[p] == '-' && r[p + 1..p + 1 + a] == rt.arch &&
      r[p + 1 + a..|r| - |rt.nodeVersion|] == " node-" && r[|r| - |rt.nodeVersion|..] == rt.nodeVersion
  {
    var r, p, a := RuntimeTips(rt), |rt.platform|, |rt.arch|;
    assert r == (rt.platform + "-") + (rt.arch + " node-") + rt.nodeVersion;
    assert (rt.platform + "-" + rt.arch)[p + 1..p + 1 + a] == rt.arch;
  }

  /** `setUsageTips`: `<name> [OPTIONS]` when the name is truthy, else empty. */
  function UsageTipsFor(info: map<string, Value>): (r: string)
    ensures r == "" <==> !Truthy(Get(info, "name"))
    ensures "name" in info && info["name"].Str? && info["name"].s != "" ==> r == info["name"].s + " [OPTIONS]"
    ensures Truthy(Get(info, "name")) ==> r == ToJsString(Get(info, "name")) + " [OPTIONS]"
  {
    var name := Get(info, "name");
    if Truthy(name) then ToJsString(name) + " [OPTIONS]" else ""
  }

  /** The `name/version ` prefix `setVersion` builds, empty when the name is falsy. */
  function PkgVersion(info: map<string, Value>): (r: string)
    ensures r == "" <==> !Truthy(Get(info, "name"))
  {
    var name, version := Get(info, "name"), Get(info, "version");
    if Truthy(name) then ToJsString(name) + "/" + (if Truthy(version) then ToJsString(version) else "") + " "
    else ""
  }

  /** `pkgInfo`: the prefix, then the description in bright cyan when it is truthy. */
  function PkgInfoFor(info: map<string, Value>): (r: string)
    ensures PkgVersion(info) <= r
    ensures !Truthy(Get(info, "description")) ==> r == PkgVersion(info)
    ensures "description" in info && info["description"].Str? && info["description"].s != "" ==>
      r == PkgVersion(info) + "\n\n" + CyanBright + info["description"].s + Eos
  {
    var description := Get(info, "description");
    PkgVersion(info) + (if Truthy(description) then "\n\n" + CyanBright + ToJsString(description) + Eos else "")
  }

  /** `versionTips`: the prefix, then the runtime description. */
  function VersionTipsFor(info: map<string, Value>, rt: Runtime): (r: string)
    ensures |r| >= |RuntimeTips(rt)| && r[|r| - |RuntimeTips(rt)|..] == RuntimeTips(rt)
  {
    PkgVersion(info) + RuntimeTips(rt)
  }

  /**
   * The version tips: `cli-aid/2.0.0 <runtime>` for a named, versioned
   * package, `name/ <runtime>` without a version, only the runtime without a
   * name.
   */
  lemma {:induction false} VersionTipsCases(name: string, version: string, rt: Runtime)
    ensures VersionTipsFor(map["name" := Str(name), "version" := Str(version)], rt) ==
      if name == "" then RuntimeTips(rt) else name + "/" + version + " " + RuntimeTips(rt)
    ensures VersionTipsFor(map["name" := Undefined, "version" := Undefined], rt) == RuntimeTips(rt)
    ensures VersionTipsFor(map["name" := Str(name)], rt) ==
      if name == "" then RuntimeTips(rt) else name + "/ " + RuntimeTips(rt)
  {
    var named := map["name" := Str(name), "version" := Str(version)];
    assert VersionTipsFor(named, rt) == if name == "" then RuntimeTips(rt) else name + "/" + version + " " + RuntimeTips(rt) by {
      assert Get(named, "name") == Str(name) && Get(named, "version") == Str(version);
    }
    var unnamed := map["name" := Undefined, "version" := Undefined];
    assert VersionTipsFor(unnamed, rt) == RuntimeTips(rt) by {
      assert Get(unnamed, "name") == Undefined;
    }
    var unversioned := map["name" := Str(name)];
    assert VersionTipsFor(unversioned, rt) == if name == "" then RuntimeTips(rt) else name + "/ " + RuntimeTips(rt) by {
      assert Get(unversioned, "name") == Str(name) && Get(unversioned, "version") == Undefined;
      assert name + "/" + "" + " " == name + "/ ";
    }
  }

  // ---------------------------------------------------------------------------
  // The CLI object
  // ---------------------------------------------------------------------------

  class CLI {
    var schema: seq<SchemaEntry>
    var parsed: map<string, Value>
    var commands: seq<Command>
    var pkg: map<string, Value>
    var pkgInfo: string
    var versionTips: string
    var usageTips: string

    /** The schema always starts with the built-in `help` and `version` entries. */
    ghost predicate Valid()
      reads this
    {
      |schema| >= |DefaultSchema()| && schema[..|DefaultSchema()|] == DefaultSchema()
    }

    /** `new CLI({ name, version, schema })`; `rt` stands for the `process` data. */
    constructor (name: Value, version: Value, userSchema: seq<SchemaEntry>, rt: Runtime)
      ensures Valid()
      ensures schema == DefaultSchema() + userSchema && parsed == map[] && commands == []
      ensures pkg == map["name" := name, "version" := version]
      ensures usageTips == UsageTipsFor(pkg) && pkgInfo == PkgInfoFor(pkg) && versionTips == VersionTipsFor(pkg, rt)
    {
      schema := DefaultSchema() + userSchema;
      parsed := map[];
      commands := [];
      var info := map["name" := name, "version" := version];
      pkg := info;
      pkgInfo := "";
      versionTips := "";
      usageTips := "";
      new;
      assert (DefaultSchema() + userSchema)[..|DefaultSchema()|] == DefaultSchema();
      SetUsageTips(info);
      SetVersion(info, rt);
    }

    /** `package(packageInfo)`: merge into the package record, then rebuild the version and usage tips. */
    method SetPackage(packageInfo: map<string, Value>, rt: Runtime)
      requires Valid()
      modifies this
      ensures Valid()
      ensures pkg == old(pkg) + packageInfo
      ensures versionTips == VersionTipsFor(pkg, rt) && pkgInfo == PkgInfoFor(pkg) && usageTips == UsageTipsFor(pkg)
      ensures schema == old(schema) && commands == old(commands) && parsed == old(parsed)
    {
      var merged := pkg + packageInfo;
      pkg := merged;
      SetVersion(merged, rt);
      SetUsageTips(merged);
    }

    /** `setUsageTips`. */
    method SetUsageTips(info: map<string, Value>)
      modifies this`usageTips
      ensures usageTips == UsageTipsFor(info)
    {
      usageTips := UsageTipsFor(info);
    }

    /** `setVersion`. */
    method SetVersion(info: map<string, Value>, rt: Runtime)
      modifies this`pkgInfo, this`versionTips
      ensures pkgInfo == PkgInfoFor(info) && versionTips == VersionTipsFor(info, rt)
    {
      pkgInfo := PkgInfoFor(info);
      versionTips := VersionTipsFor(info, rt);
    }

    /** `usage(tips)`: replace the usage tips. */
    method SetUsage(tips: string)
      modifies this`usageTips
      ensures usageTips == tips
    {
      usageTips := tips;
    }

    /** `option(...schemaEntry)`: append one entry and change no earlier one. */
    method AddOption(entry: SchemaEntry)
      requires Valid()
      modifies this`schema
      ensures Valid()
      ensures schema == old(schema) + [entry]
    {
      schema := schema + [entry];
    }

    /**
     * `command(cmd, options, execute)`: a non-empty string name appends one
     * command and chains; anything else leaves the commands as they are and
     * does not chain.
     */
    method AddCommand(cmd: Value, options: Value, execute: Value) returns (chained: bool)
      modifies this`commands
      ensures chained <==> Registers(cmd)
      ensures commands == if chained then old(commands) + [NewCommand(cmd.s, options, execute)] else old(commands)
    {
      var name := if cmd.Undefined? then Str("") else cmd;
      if !Truthy(name) || !IsString(name) {
        return false;
      }
      commands := commands + [NewCommand(name.s, options, execute)];
      return true;
    }

    /**
     * `parse`: resolve the bag against the schema, store the result with `_`
     * set to the positionals, and decide what happens next. When the schema
     * has an empty entry the resolution throws and nothing is stored.
     */
    method Parse(bag: Bag) returns (result: Option<map<string, Value>>, outcome: Outcome)
      modifies this`parsed
      ensures result == Parsed(schema, bag)
      ensures parsed == if result.Some? then result.value else old(parsed)
      ensures outcome == if result.Some? then Decide(parsed, commands) else SchemaTypeError
    {
      var argEntries := ParseAgainstSchema(schema, bag);
      if argEntries.None? {
        return None, SchemaTypeError;
      }
      parsed := argEntries.value["_" := Arr(StrValues(bag.positionals))];
      outcome := After();
      result := Some(parsed);
    }

    /** `after`, on the stored parse result. */
    method After() returns (outcome: Outcome)
      ensures outcome == Decide(parsed, commands)
    {
      outcome := Decide(parsed, commands);
    }
  }
}
