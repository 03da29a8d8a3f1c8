/** The terminal preference validator: it turns preference keys into terminal
    option names, normalises preference values, filters preference changes
    into option-change events and builds the terminal's options object. */
module Terminal {
  import opened JsValues
  import opened JsStrings

  /** The marker `_prefToOption` removes from a preference key. */
  const Prefix: string := "terminal."

  /** The smallest font size `_valid` lets through. */
  const MinFontSize: int := 5

  /** `TerminalPreference.defaultOptions`: the options every options object
      starts from. */
  const DefaultOptions: map<string, Value> := map[
    "allowTransparency" := Bool(true),
    "macOptionIsMeta" := Bool(false),
    "cursorBlink" := Bool(false),
    "scrollback" := Num(2500),
    "tabStopWidth" := Num(8),
    "fontSize" := Num(12)
  ]

  /** The two tables the validator consults, defined outside this file:
      `OptionTypeName` as its own entries in enumeration order, and
      `DefaultOptionValue` as a dictionary. */
  datatype OptionTables = OptionTables(
    optionTypeName: seq<(string, Value)>,
    defaultOptionValue: map<string, Value>)

  /** An option-change event (`IPreferenceValue`). */
  datatype PreferenceValue = PreferenceValue(name: string, value: Value)

  /** A preference-change notification as the preference service delivers it. */
  datatype PreferenceChange = PreferenceChange(preferenceName: string, newValue: Value, oldValue: Value)

  /** `obj[key]` on an object given by its entries: `undefined` when absent. */
  function Property(entries: seq<(string, Value)>, key: string): (r: Value)
    ensures r != Undefined ==> exists e :: e in entries && e.0 == key && e.1 == r
    ensures (forall e :: e in entries ==> e.0 != key) ==> r == Undefined
    ensures forall i :: 0 <= i < |entries| && entries[i].0 == key && (forall j :: 0 <= j < i ==> entries[j].0 != key)
                        ==> r == entries[i].1
  {
    if entries == [] then Undefined
    else if entries[0].0 == key then entries[0].1
    else Property(entries[1..], key)
  }

  /** The hard-coded defaults: exactly six options, and a font size that
      already passes the clamp. */
  lemma DefaultOptionsContents()
    ensures DefaultOptions.Keys
            == {"allowTransparency", "macOptionIsMeta", "cursorBlink", "scrollback", "tabStopWidth", "fontSize"}
    ensures DefaultOptions["allowTransparency"] == Bool(true)
    ensures DefaultOptions["macOptionIsMeta"] == Bool(false) && DefaultOptions["cursorBlink"] == Bool(false)
    ensures DefaultOptions["scrollback"] == Num(2500) && DefaultOptions["tabStopWidth"] == Num(8)
    ensures DefaultOptions["fontSize"] == Num(12) && Exceeds(DefaultOptions["fontSize"], MinFontSize)
  {
  }

  /** `DefaultOptionValue[option]`. */
  function DefaultOf(t: OptionTables, option: string): (r: Value)
    ensures option in t.defaultOptionValue ==> r == t.defaultOptionValue[option]
    ensures option !in t.defaultOptionValue ==> r == Undefined
  {
    if option in t.defaultOptionValue then t.defaultOptionValue[option] else Undefined
  }

  /** `option === OptionTypeName.fontSize`, the first case of `_valid`'s switch. */
  predicate IsFontSizeOption(t: OptionTables, option: string): (r: bool)
    ensures r ==> exists e :: e in t.optionTypeName && e.0 == "fontSize" && e.1 == Str(option)
    ensures r ==> IsTruthy(Property(t.optionTypeName, "fontSize")) == (option != "")
  {
    Property(t.optionTypeName, "fontSize") == Str(option)
  }

  /** At most one option name takes the font-size case of the switch. */
  lemma FontSizeOptionUnique(t: OptionTables, a: string, b: string)
    requires IsFontSizeOption(t, a) && IsFontSizeOption(t, b)
    ensures a == b
  {
  }

  /** `_prefToOption`: the option name of a preference key is the key with its
      first `terminal.` removed, wherever it stands. */
  function PrefToOption(pref: string): (r: string)
    ensures forall i :: FirstOccurrence(pref, Prefix, i) ==> r == pref[..i] + pref[i + |Prefix|..]
    ensures Absent(pref, Prefix) ==> r == pref
  {
    RemoveFirst(pref, Prefix)
  }

  /** The usual key shape: a key that starts with `terminal.` loses exactly
      that prefix. */
  lemma PrefToOptionStripsPrefix(rest: string)
    ensures PrefToOption(Prefix + rest) == rest
  {
  }

  /** The marker is removed even in the middle of a key. */
  lemma PrefToOptionInMiddle()
    ensures PrefToOption("editor.terminal.fontSize") == "editor.fontSize"
  {
    var key := "editor." + Prefix + "fontSize";
    assert key == "editor.terminal.fontSize";
    forall j | 0 <= j < 7 ensures !OccursAt(key, Prefix, j) {
      assert key[j..j + |Prefix|][6 - j] == key[6] == '.';
      assert Prefix[6 - j] != '.';
    }
    assert key[7..7 + |Prefix|] == Prefix;
    assert FirstOccurrence(key, Prefix, 7);
    assert key[..7] + key[7 + |Prefix|..] == "editor.fontSize";
  }

  /** `_valid`: a font size is clamped to at least 5; any other option keeps a
      truthy value and falls back to its default otherwise. */
  function Validate(t: OptionTables, option: string, value: Value): (r: Value)
    ensures IsFontSizeOption(t, option) ==> NumericallyAtLeast(r, MinFontSize)
    ensures IsFontSizeOption(t, option) ==> r == value || r == Num(MinFontSize)
    ensures IsFontSizeOption(t, option) && Exceeds(value, MinFontSize) ==> r == value
    ensures IsFontSizeOption(t, option) && !Exceeds(value, MinFontSize) ==> r == Num(MinFontSize)
    ensures IsFontSizeOption(t, option) && value.Num? ==> r == Num(if value.n > MinFontSize then value.n else MinFontSize)
    ensures !IsFontSizeOption(t, option) && IsTruthy(value) ==> r == value
    ensures !IsFontSizeOption(t, option) && !IsTruthy(value) ==> r == DefaultOf(t, option)
  {
    if IsFontSizeOption(t, option) then
      if Exceeds(value, MinFontSize) then value else Num(MinFontSize)
    else if IsTruthy(value) then value
    else DefaultOf(t, option)
  }

  /** Validating twice is validating once. */
  lemma ValidateIdempotent(t: OptionTables, option: string, value: Value)
    ensures Validate(t, option, Validate(t, option, value)) == Validate(t, option, value)
  {
  }

  /** An explicit `false`, `0` or `''` for an option other than the font size
      is not kept: the option's default takes its place. */
  lemma FalsyReplacedByDefault(t: OptionTables, option: string, value: Value)
    requires !IsFontSizeOption(t, option)
    requires value in {Bool(false), Num(0), Str(""), Null, Undefined}
    ensures Validate(t, option, value) == DefaultOf(t, option)
  {
  }

  /** The handler registered by the constructor, as a function of one
      notification: None when it returns early, otherwise the event it fires. */
  function ChangeEvent(t: OptionTables, change: PreferenceChange): (r: Option<PreferenceValue>)
    ensures r.Some? <==> change.newValue != change.oldValue
                         && IsTruthy(Property(t.optionTypeName, PrefToOption(change.preferenceName)))
    ensures r.Some? ==> r.value.name == PrefToOption(change.preferenceName)
                        && r.value.value == Validate(t, r.value.name, change.newValue)
    ensures r.Some? ==> Validate(t, r.value.name, r.value.value) == r.value.value
    ensures r.Some? && IsFontSizeOption(t, r.value.name) ==> NumericallyAtLeast(r.value.value, MinFontSize)
  {
    var name := PrefToOption(change.preferenceName);
    if change.newValue == change.oldValue then None
    else if !IsTruthy(Property(t.optionTypeName, name)) then None
    else
      ValidateIdempotent(t, name, change.newValue);
      Some(PreferenceValue(name, Validate(t, name, change.newValue)))
  }

  /** A change of `terminal.fontSize` to a new value fires one event, named
      `fontSize`, whose value is the new value clamped to at least 5. */
  lemma FontSizeChangeEvent(t: OptionTables, newValue: Value, oldValue: Value)
    requires IsFontSizeOption(t, "fontSize")
    requires newValue != oldValue
    ensures var r := ChangeEvent(t, PreferenceChange(Prefix + "fontSize", newValue, oldValue));
            r.Some? && r.value.name == "fontSize" && NumericallyAtLeast(r.value.value, MinFontSize)
            && (r.value.value == newValue || r.value.value == Num(MinFontSize))
  {
  }

  /** Every event in a log names an option with a truthy `OptionTypeName`
      entry and carries a value that validation leaves as it is. */
  predicate Normalised(t: OptionTables, events: seq<PreferenceValue>) {
    forall i :: 0 <= i < |events| ==>
      IsTruthy(Property(t.optionTypeName, events[i].name))
      && Validate(t, events[i].name, events[i].value) == events[i].value
  }

  /** In a normalised log every font-size event carries a size of at least 5. */
  lemma NormalisedFontSizeBound(t: OptionTables, events: seq<PreferenceValue>, i: int)
    requires Normalised(t, events) && 0 <= i < |events|
    requires IsFontSizeOption(t, events[i].name)
    ensures NumericallyAtLeast(events[i].value, MinFontSize)
  {
  }

  /** `TerminalPreference`: the preference service's stored values, the
      option tables, and the events its `onChange` emitter has fired. */
  class TerminalPreference {
    const tables: OptionTables
    const service: map<string, Value>
    var events: seq<PreferenceValue>

    ghost predicate Valid()
      reads this
    {
      Normalised(tables, events)
    }

    constructor (tables: OptionTables, service: map<string, Value>)
      ensures Valid()
      ensures this.tables == tables && this.service == service && events == []
    {
      this.tables := tables;
      this.service := service;
      events := [];
    }

    /** The preference-change handler: fires at most one event, and only the
        one ChangeEvent describes. */
    method OnPreferenceChanged(change: PreferenceChange)
      requires Valid()
      modifies this`events
      ensures Valid()
      ensures events == old(events) + match ChangeEvent(tables, change)
                                      case Some(e) => [e]
                                      case None => []
    {
      var name := PrefToOption(change.preferenceName);
      if change.newValue == change.oldValue {
        return;
      }
      if !IsTruthy(Property(tables.optionTypeName, name)) {
        return;
      }
      ValidateIdempotent(tables, name, change.newValue);
      events := events + [PreferenceValue(name, Validate(tables, name, change.newValue))];
    }

    /** `service.get(option, DefaultOptionValue[option])`. */
    function Stored(option: string): (r: Value)
      ensures option in service ==> r == service[option]
      ensures option !in service ==> r == DefaultOf(tables, option)
    {
      if option in service then service[option] else DefaultOf(tables, option)
    }

    /** `get`: the validated stored value of an option. */
    function Get(option: string): (r: Value)
      ensures r == Validate(tables, option, Stored(option))
      ensures Validate(tables, option, r) == r
      ensures IsFontSizeOption(tables, option) ==> NumericallyAtLeast(r, MinFontSize)
      ensures !IsFontSizeOption(tables, option) && option !in service ==> r == DefaultOf(tables, option)
      ensures !IsFontSizeOption(tables, option) && option in service && IsTruthy(service[option]) ==> r == service[option]
    {
      ValidateIdempotent(tables, option, Stored(option));
      Validate(tables, option, Stored(option))
    }

    /** The option names among `entries` that `toJSON` writes into its
        `options` dictionary: non-empty, with a truthy `get` value. */
    ghost function OverridesIn(entries: seq<(string, Value)>): set<string>
    {
      set e | e in entries && e.0 != "" && IsTruthy(Get(e.0)) :: e.0
    }

    ghost function Overrides(): set<string>
    {
      OverridesIn(tables.optionTypeName)
    }

    /** `toJSON`: the default options, overridden by every named option whose
        `get` value is truthy. */
    method ToJSON() returns (r: map<string, Value>)
      ensures r.Keys == DefaultOptions.Keys + Overrides()
      ensures forall name :: name in Overrides() ==> r[name] == Get(name)
      ensures forall name :: name in DefaultOptions && name !in Overrides() ==> r[name] == DefaultOptions[name]
      ensures IsFontSizeOption(tables, "fontSize") ==> NumericallyAtLeast(r["fontSize"], MinFontSize)
    {
      var entries := tables.optionTypeName;
      var options: map<string, Value> := map[];
      var i := 0;
      while i < |entries|
        invariant 0 <= i <= |entries|
        invariant options.Keys == OverridesIn(entries[..i])
        invariant forall name :: name in options ==> options[name] == Get(name)
      {
        var name := entries[i].0;
        assert entries[..i + 1] == entries[..i] + [entries[i]];
        if name != "" {
          var val := Get(name);
          if IsTruthy(val) {
            options := options[name := val];
          }
        }
        i := i + 1;
      }
      assert entries[..i] == entries;
      r := DefaultOptions + options;
    }
  }
}
