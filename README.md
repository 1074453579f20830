# Gonfiguration, modelled in Dafny

Gonfiguration is a small Go library that reads a plain-text configuration file of
`key=value` lines into a case-insensitive in-memory map. The map then answers
typed reads (string, integer, boolean), and the program can edit it. The
repository holds two near-identical copies of the store:

- `gonfiguration.go` loads strictly. An accepted line whose key is already
  present (case-insensitively) ends the load with the duplicate-key error. The
  entries stored before it stay.
- `configuration.go` loads "last wins". A later line overwrites an earlier one
  with the same key, and the load never fails once the file opens.

Both copies share the same line rule:

- A custom validator, when one is supplied, decides alone.
- Otherwise a line counts when it does not start with `#`, is not empty and
  holds `=`.

Both copies split a line the same way. The key is the text before the first
`=`, lowered. The value is everything after that `=`, further `=` included.

The project has these parts:

- `text.dfy` (module `ConfigText`): the shared text rules.
  - ASCII key lowering, the split on `=` and its inverse join.
  - The line-acceptance rule.
  - The integer getter's reading of a value, with a parse/format round trip.
- `gonfiguration.dfy` (module `Gonfiguration`):
  - the strict load as a fold over the file's lines, with its lemmas;
  - the class `Gonfiguration`, whose `Reload` loop is proved against that fold.
- `configuration.dfy` (module `Configuration`): the same for the last-wins
  load and the class `Configuration`.
- `agreement.dfy` (module `LoadAgreement`): how the two loads relate. On a
  file without case-insensitive duplicate keys they build the same map.
- `scenarios.dfy` (module `Scenarios`): concrete runs of the stores, proved
  outright. Two of them exhibit the loader defect described under Findings.

The model covers the operating system and the store's states as follows:

- The file system is a parameter `fs: map<string, seq<string>>`. A path missing
  from it is a file that cannot be opened. A present path gives the lines the
  scanner would yield.
- A nil map (a disposed store) is `values == None`.
- An absent validator is `None`.
- Go's `nil` error is `None`, and the four error values are the enumeration
  `ConfigError`.

Two behaviours of the code are worth stating plainly:

- `DeleteEntry` returns no error for an absent key (gonfiguration.go:140-141,
  configuration.go:114-115).
- The `configuration` copy overwrites a repeated key (configuration.go:151),
  where the `gonfiguration` copy rejects it (gonfiguration.go:64-66).

## Model

| member | source | states |
|---|---|---|
| `ConfigText.Lower` | gonfiguration.go:64 | Key lowering keeps the length and leaves no upper-case ASCII letter |
| `ConfigText.LowerChars` | gonfiguration.go:64 | Lowering works character by character: each character of the result is the lowered character at the same position |
| `ConfigText.LowerIdempotent` | gonfiguration.go:145-151 | Lowering an already-lowered key changes nothing, so the second lowering inside every membership test is harmless |
| `ConfigText.LowerCaseIsFixed` | gonfiguration.go:167-169 | A key with no upper-case letter lowers to itself, which is why deleting each key under its lowered spelling empties a map of lowered keys |
| `ConfigText.Join` | gonfiguration.go:67 | `strings.Join`: the parts with the separator between each two; no contract of its own, `ConfigText.SplitJoin` proves it undoes `ConfigText.Split` |
| `ConfigText.Split` | gonfiguration.go:61-62 | Splitting on a separator always gives at least one part (the empty string gives one empty part) |
| `ConfigText.SplitHasNoSeparator` | gonfiguration.go:61-62 | No part of a split holds the separator |
| `ConfigText.SplitJoin` | gonfiguration.go:61-67 | Joining the parts of a split with the separator gives the string back, the inverse the loader relies on to rebuild a value holding `=` |
| `ConfigText.SplitEntry` | gonfiguration.go:61-62 | The key is the first part of the split on `=` and the value the remaining parts joined back with `=` (line 67); no contract of its own, `ConfigText.SplitEntryParts` and `ConfigText.SplitEntryAtFirstSeparator` state what the pair is |
| `ConfigText.SplitEntryParts` | gonfiguration.go:61-67 | The key never holds `=`; for a line with `=`, key + `=` + value is the line again; for a line without `=` the key is the whole line and the value is empty |
| `ConfigText.SplitEntryAtFirstSeparator` | configuration.go:149-151 | The key is exactly the text before the first `=` and the value exactly the text after it, later `=` signs included |
| `ConfigText.IsConfigLine` | gonfiguration.go:26-31 | The line rule of both copies (also configuration.go:26-31); its contract: under the default rule an accepted line is non-empty and does not start with `#` |
| `ConfigText.IsConfigLineRule` | gonfiguration.go:26-31 | A supplied validator decides alone; without one a line is accepted iff it holds `=` and does not start with `#` (the emptiness test is implied) |
| `ConfigText.Atoi` | gonfiguration.go:96 | The integer reading is the parsed decimal (optional sign, then digits) and zero when the text is not a decimal integer |
| `ConfigText.ParseFormatRoundTrip` | configuration.go:61-72 | Every integer written in decimal reads back as itself through the integer getter's conversion |
| `Gonfiguration.StrictLoad` | gonfiguration.go:58-70 | The strict load's only possible error is DuplicateKey, and every key it stores is lower case |
| `Gonfiguration.StrictLoadWithoutDuplicates` | gonfiguration.go:58-70 | With no two accepted lines sharing a lowered key, the load succeeds; each accepted line's key maps to its value, and every stored key comes from an accepted line |
| `Gonfiguration.StrictLoadSize` | gonfiguration.go:58-70 | With no duplicates, the map has exactly one entry per accepted line |
| `Gonfiguration.StrictLoadErrorPersists` | gonfiguration.go:64-66 | Once the load has failed on a prefix of the file, the rest of the file changes neither the map nor the error |
| `Gonfiguration.StrictLoadStopsAtFirstDuplicate` | gonfiguration.go:64-66 | The first accepted line that repeats a key ends the load with DuplicateKey and the entries stored before it remain (no rollback) |
| `Gonfiguration.StrictLoadFailsIffDuplicate` | gonfiguration.go:48-71 | The strict load fails if and only if two accepted lines share a lowered key |
| `Gonfiguration.Gonfiguration.constructor` | gonfiguration.go:35-38 | A new store has an empty map, the given path and the given line rule |
| `Gonfiguration.Gonfiguration.LoadGonfiguration` | gonfiguration.go:34-45 | As written: the receiver is reloaded (its new state is the reload result for its own path); on success the returned store is new with an empty map, and on an error no store is returned |
| `Gonfiguration.Gonfiguration.Load` | gonfiguration.go:34-45 | Corrected loader: CantOpenFile and no store for a missing file, otherwise the error of the strict load, and on success a new store holding the strict load's map, path and rule |
| `Gonfiguration.Gonfiguration.Reload` | gonfiguration.go:48-71 | Empties the map, gives CantOpenFile for a missing file, and otherwise leaves exactly the strict load of the file's lines and its error; the path and rule are unchanged and all keys stay lower case |
| `Gonfiguration.Gonfiguration.GetConfigParamAsString` | gonfiguration.go:74-84 | The value under the lowered key; the default with KeyNotFound when absent; "" with NilStore on a disposed store |
| `Gonfiguration.Gonfiguration.GetConfigParamAsInt` | gonfiguration.go:87-98 | The stored value parsed as a decimal integer, or 0 when it is not one, with no error; the default with KeyNotFound when absent; 0 with NilStore when disposed |
| `Gonfiguration.Gonfiguration.GetConfigParamAsBool` | gonfiguration.go:101-111 | True exactly when the stored value is "true" or "1"; the default with KeyNotFound when absent; false with NilStore when disposed |
| `Gonfiguration.Gonfiguration.AddNewKeyValueEntry` | gonfiguration.go:114-124 | Inserts under the lowered key when it is absent; DuplicateKey with the map unchanged when present; NilStore when disposed |
| `Gonfiguration.Gonfiguration.UpdateOrAddEntry` | gonfiguration.go:127-133 | Sets the lowered key to the value whether or not it was present; NilStore when disposed |
| `Gonfiguration.Gonfiguration.DeleteEntry` | gonfiguration.go:136-142 | Removes the lowered key, with no error whether or not it was present; NilStore when disposed |
| `Gonfiguration.Gonfiguration.ContainsKey` | gonfiguration.go:145-151 | True iff the store is live and holds the lowered key |
| `Gonfiguration.Gonfiguration.GetGonfigurationLen` | gonfiguration.go:154-159 | The number of entries, or 0 with NilStore when disposed |
| `Gonfiguration.Gonfiguration.Clear` | gonfiguration.go:162-171 | Deleting key by key ends with an empty map, nothing else changes; NilStore when disposed |
| `Gonfiguration.Gonfiguration.ChangePathAndReload` | gonfiguration.go:174-179 | The path becomes the new one and the state is the reload result for it |
| `Gonfiguration.Gonfiguration.Dispose` | gonfiguration.go:182-186 | The map and the rule become nil and the path empty |
| `Gonfiguration.Gonfiguration.GetMap` | gonfiguration.go:189-191 | The live map: nil exactly when the length query reports NilStore, its size is the reported length, it holds every key membership finds, and under each such key it holds the value the string getter returns |
| `Configuration.LastWinsLoad` | configuration.go:145-154 | Every key the last-wins load stores is lower case |
| `Configuration.LastWinsLoadKeys` | configuration.go:145-154 | The loaded keys are exactly the lowered keys of the accepted lines |
| `Configuration.LastWinsLoadValue` | configuration.go:151 | A key maps to the value of the last accepted line that has it |
| `Configuration.Configuration.constructor` | configuration.go:35-38 | A new store has an empty map, the given path and the given line rule |
| `Configuration.Configuration.LoadConfiguration` | configuration.go:34-45 | As written: the receiver is reloaded; on success the returned store is new with an empty map, and on an error no store is returned |
| `Configuration.Configuration.Load` | configuration.go:34-45 | Corrected loader: CantOpenFile and no store for a missing file, otherwise no error and a new store holding the last-wins load of the file |
| `Configuration.Configuration.Reload` | configuration.go:136-155 | Empties the map, gives CantOpenFile for a missing file, and otherwise leaves exactly the last-wins load of the file's lines with no error |
| `Configuration.Configuration.GetConfigParamAsString` | configuration.go:48-58 | The value under the lowered key; the default with KeyNotFound when absent; "" with NilStore when disposed |
| `Configuration.Configuration.GetConfigParamAsInt` | configuration.go:61-72 | The stored value parsed as a decimal integer, or 0 when it is not one; the default with KeyNotFound when absent; 0 with NilStore when disposed |
| `Configuration.Configuration.GetConfigParamAsBool` | configuration.go:75-85 | True exactly when the stored value is "true" or "1"; the default with KeyNotFound when absent; false with NilStore when disposed |
| `Configuration.Configuration.AddNewKeyValueEntry` | configuration.go:88-98 | Inserts under the lowered key when absent; DuplicateKey with the map unchanged when present; NilStore when disposed |
| `Configuration.Configuration.UpdateOrAddEntry` | configuration.go:101-107 | Sets the lowered key to the value; NilStore when disposed |
| `Configuration.Configuration.DeleteEntry` | configuration.go:110-116 | Removes the lowered key with no error whether or not it was present; NilStore when disposed |
| `Configuration.Configuration.ContainsKey` | configuration.go:119-125 | True iff the store is live and holds the lowered key |
| `Configuration.Configuration.GetConfigurationLen` | configuration.go:128-133 | The number of entries, or 0 with NilStore when disposed |
| `Configuration.Configuration.Clear` | configuration.go:158-167 | Ends with an empty map, nothing else changes; NilStore when disposed |
| `Configuration.Configuration.ChangePathAndReload` | configuration.go:170-175 | The path becomes the new one and the state is the reload result for it |
| `Configuration.Configuration.Dispose` | configuration.go:178-182 | The map and the rule become nil and the path empty |
| `Configuration.Configuration.GetMap` | configuration.go:185-187 | The live map: nil exactly when the length query reports NilStore, its size is the reported length, it holds every key membership finds, and under each such key it holds the value the string getter returns |
| `LoadAgreement.StrictAgreesWithLastWins` | gonfiguration.go:58-70 | Without duplicate keys the strict load succeeds with exactly the map the last-wins load (configuration.go:145-154) builds |
| `LoadAgreement.StrictKeysAreLastWinsKeys` | gonfiguration.go:64-67 | Whatever the file, the strict load's keys are among the last-wins load's keys |
| `Scenarios.MysqlScenario` | gonfiguration.go:74-98 | After a new store reloads a file with `mysql.host=localhost` and `mysql.port=3306`, `MYSQL.HOST` reads "localhost" and `mysql.port` reads the integer 3306 |
| `Scenarios.ValueKeepsSeparators` | configuration.go:149-151 | After a new store reloads a file whose line is `welcome.message=a=b=c`, the key reads back the value "a=b=c" |
| `Scenarios.AddTwice` | gonfiguration.go:114-124 | Adding `Key` then `KEY` fails the second time with DuplicateKey and keeps the first value |
| `Scenarios.DeleteTwice` | gonfiguration.go:136-142 | Deleting the same key twice reports no error either time, and the key is gone |
| `Scenarios.ClearThenReload` | gonfiguration.go:162-171 | After Clear the length is 0; reloading a two-line file makes it 2 |
| `Scenarios.LenientReadings` | configuration.go:61-85 | "yes" reads as false, "1" as true, and a non-numeric value as the integer 0 with no error |
| `Scenarios.DisposedStore` | configuration.go:178-182 | After Dispose every getter reports NilStore with its zero value and membership is false |
| `Scenarios.LoadGonfigurationReturnsEmptyStore` | gonfiguration.go:40 | The loader as written, asked for a file holding an entry, succeeds and returns a store whose map is empty |
| `Scenarios.LoadConfigurationReturnsEmptyStore` | configuration.go:40 | The same defect in the `configuration` copy |

## Left out

- Opening, scanning and closing the file are replaced by the `fs` parameter. The
  scanner's token-size limit and read errors are not modelled; a read error
  ends the loop silently in the source and is treated here as the end of the
  file.
- `ConfigText.Lower` lowers ASCII letters only, where `strings.ToLower` follows
  Unicode case mapping. Keys with non-ASCII letters can compare differently.
- `Gonfiguration.Gonfiguration.GetConfigParamAsInt`: does not model the range
  error of `strconv.Atoi`. An out-of-range value is read here as its exact value,
  where the source gets the clamped bound of Go's `int`. Underscore and base prefixes
  are not accepted by either.
- `Configuration.Configuration.GetConfigParamAsInt`: the same as above.
- `Gonfiguration.Gonfiguration.GetMap`: the source returns the map itself, so
  the caller can mutate the store through it (aliasing). The model returns the
  map's value.
- `Configuration.Configuration.GetMap`: the same aliasing is not modelled.
- Writes to the exported struct fields from outside the methods are not
  modelled. The class invariant assumes every stored key is lower case, and
  `Clear` requires it. The source's `Clear` deletes under the lowered key, so
  it would leave an upper-case key written directly into the map.
- The methods' nil-receiver checks (`c == nil`) are not modelled, because a
  Dafny receiver is never null. A disposed store (nil map) takes those paths.
- `Reload`, `ChangePathAndReload`, `LoadGonfiguration` and `LoadConfiguration`
  panic on a disposed store whose file opens and holds an accepted line, since
  they write into a nil map. The model states this as the precondition
  `ReloadDefined` instead of modelling the panic.
- Error values are compared by identity in Go. Here they are constructors of
  one enumeration, and their message texts are left out.
- A custom validator is a pure function here. Side effects or panics inside it
  are not modelled.

## Findings

| source | as written | input that shows it | evidently intended | confidence | as-written member | corrected member |
|---|---|---|---|---|---|---|
| gonfiguration.go:40 | The loader builds a new store for the requested path but calls `Reload` on the receiver, then returns the new store with its map still empty | a receiver pointing at `other.conf` (empty), asked to load `app.conf` holding `mysql.host=localhost`: returns no error and a store with an empty map | reload the new store, so the returned store holds the file's entries | high, not executed | `Gonfiguration.Gonfiguration.LoadGonfiguration` (witness `Scenarios.LoadGonfigurationReturnsEmptyStore`) | `Gonfiguration.Gonfiguration.Load` |
| configuration.go:40 | The same in the `configuration` copy | the same receiver and file | the same | high, not executed | `Configuration.Configuration.LoadConfiguration` (witness `Scenarios.LoadConfigurationReturnsEmptyStore`) | `Configuration.Configuration.Load` |
