# Terminal preference validator

A Dafny model of `TerminalPreference`, the class that feeds user preferences
to the IDE's integrated terminal (`packages/terminal-next/src/browser/terminal.preference.ts`).
It does four things, and the model does all four:

- it turns a preference key such as `terminal.fontSize` into a terminal
  option name by removing the first `terminal.` (`_prefToOption`);
- it normalises a raw preference value (`_valid`): the font size is clamped to
  at least 5, and any other option falls back to its default when its value
  is falsy;
- it listens to preference changes and fires an option-change event for each
  change that alters a value of a known option (the handler installed by the
  constructor);
- it builds the terminal's options object (`toJSON`): the hard-coded defaults,
  overridden by every known option whose validated value is truthy.

Files:

- `js_values.dfy` (module `JsValues`): the JavaScript primitives a preference
  can hold, their truthiness, and the numeric conversion behind `value > 5`.
- `js_strings.dfy` (module `JsStrings`): `String.prototype.replace` with a
  string pattern and an empty replacement, proved to cut out exactly the
  leftmost occurrence.
- `terminal_preference.dfy` (module `Terminal`): the option tables, the pure
  operations `PrefToOption`, `Validate` and `ChangeEvent`, and the class
  `TerminalPreference` with the preference store, the log of fired events,
  the change handler, `Get` and `ToJSON`.

The two tables the class consults, `OptionTypeName` and `DefaultOptionValue`,
live in `../common/preference`, which is not part of this model; they are a
parameter (`OptionTables`): `OptionTypeName` as its entries in enumeration
order, `DefaultOptionValue` as a dictionary. The switch case
`OptionTypeName.fontSize` is modelled literally, as `option ===
OptionTypeName.fontSize` (`IsFontSizeOption`), so no value is assumed for it.
The preference service is the map `service` (stored value per key; `get(k, d)`
returns `d` when nothing is stored under `k`), and the `onChange` emitter is
the sequence `events`, to which firing appends.

The class keeps one invariant, `Valid()`: every fired event names an option
whose `OptionTypeName` entry is truthy and carries a value that `_valid`
leaves unchanged. Because validation is idempotent, the handler preserves it,
and from it every fired font-size event carries a size of at least 5.

## Model

| member | source | states |
|---|---|---|
| `JsValues.FalsyValues` | packages/terminal-next/src/browser/terminal.preference.ts:33 | `IsTruthy`, the truthiness behind the fallback to the default (line 33), `!OptionTypeName[name]` (line 43), `!name` (line 62) and `if (val)` (line 66): the values treated as false are exactly `undefined`, `null`, `false`, `0` and `''` |
| `JsValues.StringToNumber` | packages/terminal-next/src/browser/terminal.preference.ts:31 | a string used in `value > 5` converts to a number exactly when it is empty or all decimal digits, and that number is never negative |
| `JsValues.ToNumber` | packages/terminal-next/src/browser/terminal.preference.ts:31 | the numeric conversion of `value > 5`: numbers stay themselves, `undefined` is NaN, `null` and `false` become 0, `true` becomes 1, and a string converts as `StringToNumber` says |
| `JsValues.Exceeds` | packages/terminal-next/src/browser/terminal.preference.ts:31 | `value > 5`: for a number it is the ordinary comparison, `undefined` (NaN) never exceeds, and a value that exceeds converts to a number above the bound and, for a non-negative bound, is truthy |
| `JsStrings.RemoveFirst` | packages/terminal-next/src/browser/terminal.preference.ts:25 | `replace` with a string pattern cuts out the leftmost occurrence wherever it stands and leaves everything before and after it unchanged; a string without the pattern is returned as is |
| `JsStrings.FirstOccurrenceExists` | packages/terminal-next/src/browser/terminal.preference.ts:25 | every string either lacks the pattern or has exactly one leftmost occurrence, so the contract of `RemoveFirst` fixes its result for every input |
| `JsStrings.KeepHead` | packages/terminal-next/src/browser/terminal.preference.ts:25 | removing the pattern from a string that does not start with it keeps the first character and removes the pattern from the rest |
| `JsStrings.ShiftOccurrence` | packages/terminal-next/src/browser/terminal.preference.ts:25 | an occurrence after index 0 is an occurrence in the string without its first character, one place earlier |
| `JsStrings.FirstOccurrenceShifts` | packages/terminal-next/src/browser/terminal.preference.ts:25 | the leftmost occurrence in a string that does not start with the pattern is the leftmost occurrence in its tail, one place later |
| `Terminal.Property` | packages/terminal-next/src/browser/terminal.preference.ts:43 | a property lookup gives `undefined` when the object has no such key, and otherwise the value of the first entry under that key |
| `Terminal.DefaultOptionsContents` | packages/terminal-next/src/browser/terminal.preference.ts:9-16 | the six hard-coded defaults: allowTransparency true, macOptionIsMeta false, cursorBlink false, scrollback 2500, tabStopWidth 8, fontSize 12, and no other key; the default font size already exceeds 5 |
| `Terminal.DefaultOf` | packages/terminal-next/src/browser/terminal.preference.ts:33 | `DefaultOptionValue[option]`: the table's entry for the option, `undefined` when it has none |
| `Terminal.IsFontSizeOption` | packages/terminal-next/src/browser/terminal.preference.ts:30 | `option === OptionTypeName.fontSize`: it needs a `fontSize` entry in `OptionTypeName` whose value is the option name itself |
| `Terminal.FontSizeOptionUnique` | packages/terminal-next/src/browser/terminal.preference.ts:30 | at most one option name takes the font-size case of the switch |
| `Terminal.PrefToOption` | packages/terminal-next/src/browser/terminal.preference.ts:24-26 | the option name is the preference key with its leftmost `terminal.` removed; a key without `terminal.` is its own option name |
| `Terminal.PrefToOptionStripsPrefix` | packages/terminal-next/src/browser/terminal.preference.ts:24-26 | a key of the form `terminal.<rest>` gives the option name `<rest>` |
| `Terminal.PrefToOptionInMiddle` | packages/terminal-next/src/browser/terminal.preference.ts:24-26 | the marker is removed even when it is not at the start: `editor.terminal.fontSize` gives `editor.fontSize` |
| `Terminal.Validate` | packages/terminal-next/src/browser/terminal.preference.ts:28-35 | a font size is clamped: the result is the value itself when it compares greater than 5 (after JavaScript's numeric conversion, so also a digit string such as `'10'`) and 5 otherwise, always converts to a number of at least 5, and for a number n is max(n, 5); any other option keeps a truthy value and gets its default for a falsy one |
| `Terminal.ValidateIdempotent` | packages/terminal-next/src/browser/terminal.preference.ts:28-35 | validating an already validated value changes nothing |
| `Terminal.FalsyReplacedByDefault` | packages/terminal-next/src/browser/terminal.preference.ts:32-33 | for an option other than the font size, an explicit `false`, `0`, `''`, `null` or `undefined` is replaced by the option's default |
| `Terminal.ChangeEvent` | packages/terminal-next/src/browser/terminal.preference.ts:38-50 | a change fires an event exactly when the new value differs from the old one and the derived name has a truthy `OptionTypeName` entry; the event carries the derived name and the validated new value, which is already normalised and, for the font size, at least 5 |
| `Terminal.FontSizeChangeEvent` | packages/terminal-next/src/browser/terminal.preference.ts:38-50 | changing `terminal.fontSize` to a different value fires one `fontSize` event whose value is the new value or 5, and at least 5 |
| `Terminal.NormalisedFontSizeBound` | packages/terminal-next/src/browser/terminal.preference.ts:46-49 | in the log of fired events every font-size event carries a size of at least 5 |
| `Terminal.TerminalPreference.constructor` | packages/terminal-next/src/browser/terminal.preference.ts:18-22 | a new validator has fired no events and satisfies the log invariant |
| `Terminal.TerminalPreference.OnPreferenceChanged` | packages/terminal-next/src/browser/terminal.preference.ts:38-50 | handling a change appends exactly the event `ChangeEvent` describes, or nothing, to the log, and keeps the log invariant |
| `Terminal.TerminalPreference.Stored` | packages/terminal-next/src/browser/terminal.preference.ts:54 | `service.get(option, DefaultOptionValue[option])`: the stored value when the key is stored, the option's default otherwise |
| `Terminal.TerminalPreference.Get` | packages/terminal-next/src/browser/terminal.preference.ts:53-56 | `get` returns `_valid` of the stored value (the default when nothing is stored), so a value that validation leaves unchanged; a font size of at least 5; for another option, its default when nothing is stored and the stored value when that is truthy |
| `Terminal.TerminalPreference.ToJSON` | packages/terminal-next/src/browser/terminal.preference.ts:58-75 | the options object has every default key plus every non-empty option name whose `get` value is truthy; such a name maps to its `get` value, every other default key keeps its default, and the font size in it is at least 5 |

## Left out

- `PreferenceService` subscription and dependency injection (`@Autowired`, `onPreferenceChanged` registration): the handler is a method that receives each change; the store is a map.
- `Emitter` internals and listeners: firing appends to the `events` log.
- `../common/preference` is not part of this model: `OptionTypeName` and `DefaultOptionValue` are parameters.
- Property lookups do not follow the prototype chain: a key such as `toString` is looked up only among the tables' own entries.
- Preference values are primitives with integer numbers: objects and arrays (compared by reference under `===`), fractional numbers, `NaN` and `-0` are not modelled.
- `JsValues.StringToNumber`: converts only the empty string and strings of decimal digits; other strings that JavaScript would convert (surrounding whitespace, a sign, a decimal point, an exponent, hexadecimal) are treated as `NaN`, so for those the font-size comparison can differ.
- `Terminal.TerminalPreference.ToJSON`: the result is a dictionary, so the key order of the JavaScript object is not modelled.
- Terminal.TerminalPreference.Stored: `PreferenceService.get` is taken to return the default exactly when no value is stored under the key; how the real service treats a stored `undefined` is not visible here.
- The editor, layout, logger, Monaco and extension-host files (`packages/editor/src/common/editor.ts`, `packages/main-layout/...`, `packages/core-node/src/logger/node-logger.ts`, `packages/monaco/src/browser/index.ts`, `tools/dev-tool/src/ext-host.js`) hold declarations, UI wiring and dependency-injection setup only; their doc-comments mention a preview-mode default (`packages/editor/src/common/editor.ts`, lines 177-179), position clamping (lines 185-198) and open-type weight order (line 371), none of which is implemented in them, so there is nothing to model against.
