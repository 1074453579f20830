/** The `gonfiguration` copy of the store: loading rejects a key that is
    already present (case-insensitively) and stops at that line. */
module Gonfiguration {
  import opened ConfigText

  // ---------------------------------------------------------------------
  // Loading, as a fold over the lines of the file
  // ---------------------------------------------------------------------

  /** No two accepted lines store under the same lowered key. */
  predicate NoDuplicates(lines: seq<string>, validator: Option<string -> bool>) {
    forall i, j ::
      0 <= i < j < |lines| && IsConfigLine(validator, lines[i]) && IsConfigLine(validator, lines[j])
      ==> LineKey(lines[i]) != LineKey(lines[j])
  }

  /** How many of the lines the rule accepts. */
  function AcceptedCount(lines: seq<string>, validator: Option<string -> bool>): nat {
    if |lines| == 0 then 0
    else AcceptedCount(lines[..|lines| - 1], validator) + (if IsConfigLine(validator, lines[|lines| - 1]) then 1 else 0)
  }

  /** The map and the error after the load loop has read `lines`, starting
      from an empty map: each accepted line is split and stored under its
      lowered key, and an accepted line whose key is already present ends the
      load with DuplicateKey, keeping what the earlier lines stored. */
  function StrictLoad(lines: seq<string>, validator: Option<string -> bool>): (r: (Values, Option<ConfigError>))
    ensures r.1 == None || r.1 == Some(DuplicateKey)
    ensures forall k :: k in r.0 ==> IsLowerCase(k)
    decreases |lines|
  {
    if |lines| == 0 then (map[], None)
    else
      var prev := StrictLoad(lines[..|lines| - 1], validator);
      var line := lines[|lines| - 1];
      if prev.1.Some? || !IsConfigLine(validator, line) then prev
      else if LineKey(line) in prev.0 then (prev.0, Some(DuplicateKey))
      else (prev.0[LineKey(line) := SplitEntry(line).value], None)
  }

  /** A prefix of lines without duplicates has none either. */
  lemma NoDuplicatesPrefix(lines: seq<string>, n: nat, validator: Option<string -> bool>)
    requires n <= |lines| && NoDuplicates(lines, validator)
    ensures NoDuplicates(lines[..n], validator)
  {
    var pre := lines[..n];
    forall i, j | 0 <= i < j < |pre| && IsConfigLine(validator, pre[i]) && IsConfigLine(validator, pre[j])
      ensures LineKey(pre[i]) != LineKey(pre[j])
    {
      assert pre[i] == lines[i] && pre[j] == lines[j];
    }
  }

  /** One more line read by the load loop. */
  lemma StrictLoadNext(lines: seq<string>, i: nat, validator: Option<string -> bool>)
    requires i < |lines|
    ensures StrictLoad(lines[..i + 1], validator) ==
      var prev := StrictLoad(lines[..i], validator);
      var line := lines[i];
      if prev.1.Some? || !IsConfigLine(validator, line) then prev
      else if LineKey(line) in prev.0 then (prev.0, Some(DuplicateKey))
      else (prev.0[LineKey(line) := SplitEntry(line).value], None)
  {
    assert lines[..i + 1][..i] == lines[..i];
  }

  /** Without duplicates the load succeeds, and the map holds exactly the
      accepted lines: each one's lowered key mapped to its value, and no
      other key. */
  lemma {:induction false} StrictLoadWithoutDuplicates(lines: seq<string>, validator: Option<string -> bool>)
    requires NoDuplicates(lines, validator)
    ensures StrictLoad(lines, validator).1 == None
    ensures forall i :: 0 <= i < |lines| && IsConfigLine(validator, lines[i]) ==>
      LineKey(lines[i]) in StrictLoad(lines, validator).0 &&
      StrictLoad(lines, validator).0[LineKey(lines[i])] == SplitEntry(lines[i]).value
    ensures forall k :: k in StrictLoad(lines, validator).0 ==>
      exists i :: 0 <= i < |lines| && IsConfigLine(validator, lines[i]) && LineKey(lines[i]) == k
    decreases |lines|
  {
    if |lines| > 0 {
      var n := |lines| - 1;
      var prefix := lines[..n];
      var last := lines[n];
      NoDuplicatesPrefix(lines, n, validator);
      StrictLoadWithoutDuplicates(prefix, validator);
      var m := StrictLoad(prefix, validator).0;
      assert lines == prefix + [last];
      if IsConfigLine(validator, last) {
        forall i | 0 <= i < n && IsConfigLine(validator, prefix[i])
          ensures LineKey(prefix[i]) != LineKey(last)
        {
          assert prefix[i] == lines[i];
        }
        assert LineKey(last) !in m;
      }
    }
  }

  /** Without duplicates, the last accepted line brings a key the lines
      before it did not store. */
  lemma LastKeyIsNew(lines: seq<string>, validator: Option<string -> bool>)
    requires |lines| > 0 && NoDuplicates(lines, validator)
    requires IsConfigLine(validator, lines[|lines| - 1])
    ensures LineKey(lines[|lines| - 1]) !in StrictLoad(lines[..|lines| - 1], validator).0
  {
    var n := |lines| - 1;
    var prefix := lines[..n];
    NoDuplicatesPrefix(lines, n, validator);
    StrictLoadWithoutDuplicates(prefix, validator);
    forall i | 0 <= i < n && IsConfigLine(validator, prefix[i])
      ensures LineKey(prefix[i]) != LineKey(lines[n])
    {
      assert prefix[i] == lines[i];
    }
  }

  /** Without duplicates the map has one entry per accepted line. */
  lemma {:induction false} StrictLoadSize(lines: seq<string>, validator: Option<string -> bool>)
    requires NoDuplicates(lines, validator)
    ensures |StrictLoad(lines, validator).0| == AcceptedCount(lines, validator)
    decreases |lines|
  {
    if |lines| > 0 {
      var n := |lines| - 1;
      var prefix := lines[..n];
      NoDuplicatesPrefix(lines, n, validator);
      StrictLoadSize(prefix, validator);
      assert StrictLoad(prefix, validator).1 == None by {
        StrictLoadWithoutDuplicates(prefix, validator);
      }
      StrictLoadNext(lines, n, validator);
      assert lines[..n + 1] == lines;
      if IsConfigLine(validator, lines[n]) {
        LastKeyIsNew(lines, validator);
      }
    }
  }

  /** Once the load has failed on a prefix, the later lines change nothing. */
  lemma {:induction false} StrictLoadErrorPersists(lines: seq<string>, n: nat, validator: Option<string -> bool>)
    requires n <= |lines|
    requires StrictLoad(lines[..n], validator).1.Some?
    ensures StrictLoad(lines, validator) == StrictLoad(lines[..n], validator)
    decreases |lines| - n
  {
    if n == |lines| {
      assert lines[..n] == lines;
    } else {
      var prefix := lines[..|lines| - 1];
      assert prefix[..n] == lines[..n];
      StrictLoadErrorPersists(prefix, n, validator);
    }
  }

  /** When a line is the first to break the absence of duplicates, an
      earlier accepted line shares its lowered key. */
  lemma FirstDuplicatePartner(lines: seq<string>, validator: Option<string -> bool>, j: nat) returns (a: nat)
    requires j < |lines|
    requires NoDuplicates(lines[..j], validator)
    requires !NoDuplicates(lines[..j + 1], validator)
    ensures a < j && IsConfigLine(validator, lines[a]) && IsConfigLine(validator, lines[j])
    ensures LineKey(lines[a]) == LineKey(lines[j])
  {
    var pre := lines[..j];
    var upto := lines[..j + 1];
    var x, y :| 0 <= x < y < |upto| && IsConfigLine(validator, upto[x]) && IsConfigLine(validator, upto[y])
      && LineKey(upto[x]) == LineKey(upto[y]);
    forall u, w | 0 <= u < w < j && IsConfigLine(validator, upto[u]) && IsConfigLine(validator, upto[w])
      ensures LineKey(upto[u]) != LineKey(upto[w])
    {
      assert pre[u] == upto[u] && pre[w] == upto[w];
    }
    assert y == j;
    a := x;
    assert upto[a] == lines[a] && upto[y] == lines[j];
  }

  /** Before any duplicate, the load has succeeded and holds the key of
      every accepted line read so far. */
  lemma EarlierKeyIsStored(lines: seq<string>, validator: Option<string -> bool>, j: nat, a: nat)
    requires a < j <= |lines| && NoDuplicates(lines[..j], validator)
    requires IsConfigLine(validator, lines[a])
    ensures StrictLoad(lines[..j], validator).1 == None
    ensures LineKey(lines[a]) in StrictLoad(lines[..j], validator).0
  {
    var pre := lines[..j];
    StrictLoadWithoutDuplicates(pre, validator);
    assert pre[a] == lines[a];
  }

  /** The first accepted line that repeats an earlier key ends the load with
      DuplicateKey, and the map keeps the entries of the lines before it:
      there is no rollback. */
  lemma StrictLoadStopsAtFirstDuplicate(lines: seq<string>, validator: Option<string -> bool>, j: nat)
    requires j < |lines|
    requires NoDuplicates(lines[..j], validator)
    requires !NoDuplicates(lines[..j + 1], validator)
    ensures StrictLoad(lines, validator) == (StrictLoad(lines[..j], validator).0, Some(DuplicateKey))
  {
    var a := FirstDuplicatePartner(lines, validator, j);
    EarlierKeyIsStored(lines, validator, j, a);
    StrictLoadNext(lines, j, validator);
    StrictLoadErrorPersists(lines, j + 1, validator);
  }

  /** The load fails exactly when two accepted lines share a lowered key. */
  lemma {:induction false} StrictLoadFailsIffDuplicate(lines: seq<string>, validator: Option<string -> bool>)
    ensures StrictLoad(lines, validator).1.Some? <==> !NoDuplicates(lines, validator)
    decreases |lines|
  {
    if NoDuplicates(lines, validator) {
      StrictLoadWithoutDuplicates(lines, validator);
    } else {
      var j := |lines| - 1;
      var prefix := lines[..j];
      assert lines[..j + 1] == lines;
      StrictLoadFailsIffDuplicate(prefix, validator);
      if NoDuplicates(prefix, validator) {
        StrictLoadStopsAtFirstDuplicate(lines, validator, j);
      } else {
        StrictLoadErrorPersists(lines, j, validator);
      }
    }
  }

  // ---------------------------------------------------------------------
  // Reload, on the values it reads and writes
  // ---------------------------------------------------------------------

  /** The map and the error Reload leaves, given whether the store was live:
      the map is emptied first, a path that cannot be opened gives
      CantOpenFile, and otherwise the file's lines are loaded strictly. A
      disposed store stays disposed. */
  function ReloadResult(live: bool, validator: Option<string -> bool>, path: string, fs: FileSystem): (Option<Values>, Option<ConfigError>)
    requires ReloadDefined(live, validator, path, fs)
  {
    if path !in fs then (if live then Some(map[]) else None, Some(CantOpenFile))
    else if !live then (None, None)
    else
      var loaded := StrictLoad(fs[path], validator);
      (Some(loaded.0), loaded.1)
  }

  // ---------------------------------------------------------------------
  // The store
  // ---------------------------------------------------------------------

  class Gonfiguration {
    /** The map, or None once the store is disposed (a nil map). */
    var values: Option<Values>
    /** The custom line rule, or None for the default rule. */
    var validator: Option<string -> bool>
    var filePath: string

    /** Every stored key is in lower case. */
    ghost predicate Valid()
      reads this
    {
      values.Some? ==> forall k :: k in values.value ==> IsLowerCase(k)
    }

    /** A new store with an empty map, the given path and line rule. */
    constructor (path: string, validateFunction: Option<string -> bool>)
      ensures Valid()
      ensures values == Some(map[]) && validator == validateFunction && filePath == path
    {
      values := Some(map[]);
      validator := validateFunction;
      filePath := path;
    }

    /** As written in the source: builds a new store for `path`, but reloads
        the receiver and returns the new store with its map still empty. */
    method LoadGonfiguration(path: string, validateFunction: Option<string -> bool>, fs: FileSystem)
      returns (loaded: Gonfiguration?, err: Option<ConfigError>)
      requires Valid()
      requires ReloadDefined(values.Some?, validator, filePath, fs)
      modifies this
      ensures Valid() && validator == old(validator) && filePath == old(filePath)
      ensures (values, err) == ReloadResult(old(values).Some?, validator, filePath, fs)
      ensures loaded == null <==> err.Some?
      ensures loaded != null ==> fresh(loaded) && loaded.Valid() && loaded.values == Some(map[])
      ensures loaded != null ==> loaded.validator == validateFunction && loaded.filePath == path
    {
      var created := new Gonfiguration(path, validateFunction);
      var reloadError := Reload(fs);
      if reloadError.Some? {
        return null, reloadError;
      }
      return created, None;
    }

    /** The loader as evidently intended: the new store is the one loaded.
        On an error the caller gets no store, as in the source. */
    static method Load(path: string, validateFunction: Option<string -> bool>, fs: FileSystem)
      returns (loaded: Gonfiguration?, err: Option<ConfigError>)
      ensures path !in fs ==> loaded == null && err == Some(CantOpenFile)
      ensures path in fs ==> err == StrictLoad(fs[path], validateFunction).1
      ensures loaded == null <==> err.Some?
      ensures loaded != null ==> fresh(loaded) && loaded.Valid() && path in fs
      ensures loaded != null ==> loaded.values == Some(StrictLoad(fs[path], validateFunction).0)
      ensures loaded != null ==> loaded.validator == validateFunction && loaded.filePath == path
    {
      var store := new Gonfiguration(path, validateFunction);
      var reloadError := store.Reload(fs);
      if reloadError.Some? {
        return null, reloadError;
      }
      return store, None;
    }

    /** Empties the map, then loads the file's accepted lines one by one and
        stops at the first key already present. */
    method Reload(fs: FileSystem) returns (err: Option<ConfigError>)
      requires Valid()
      requires ReloadDefined(values.Some?, validator, filePath, fs)
      modifies this
      ensures Valid() && validator == old(validator) && filePath == old(filePath)
      ensures (values, err) == ReloadResult(old(values).Some?, validator, filePath, fs)
    {
      var _ := Clear();
      if filePath !in fs {
        return Some(CantOpenFile);
      }
      var lines := fs[filePath];
      var i := 0;
      while i < |lines|
        invariant 0 <= i <= |lines|
        invariant Valid() && validator == old(validator) && filePath == old(filePath)
        invariant values.Some? == old(values).Some?
        invariant values.Some? ==> values.value == StrictLoad(lines[..i], validator).0
        invariant values.Some? ==> StrictLoad(lines[..i], validator).1 == None
      {
        var line := lines[i];
        StrictLoadNext(lines, i, validator);
        if IsConfigLine(validator, line) {
          var entry := SplitEntry(line);
          var code := Lower(entry.key);
          LowerIdempotent(entry.key);
          if ContainsKey(code) {
            StrictLoadErrorPersists(lines, i + 1, validator);
            return Some(DuplicateKey);
          }
          values := Some(values.value[code := entry.value]);
        }
        i := i + 1;
      }
      assert lines[..i] == lines;
      return None;
    }

    /** The value stored under the key, case-insensitively; the caller's
        default with KeyNotFound when it is absent; "" with NilStore on a
        disposed store. */
    function GetConfigParamAsString(key: string, def: string): (r: (string, Option<ConfigError>))
      reads this
      ensures values.None? ==> r == ("", Some(NilStore))
      ensures values.Some? && Lower(key) !in values.value ==> r == (def, Some(KeyNotFound))
      ensures values.Some? && Lower(key) in values.value ==> r == (values.value[Lower(key)], None)
    {
      LowerIdempotent(key);
      if values.None? then ("", Some(NilStore))
      else if !ContainsKey(Lower(key)) then (def, Some(KeyNotFound))
      else (values.value[Lower(key)], None)
    }

    /** The stored value read as a decimal integer, zero when it is not one;
        the caller's default with KeyNotFound when absent; 0 with NilStore on
        a disposed store. */
    function GetConfigParamAsInt(key: string, def: int): (r: (int, Option<ConfigError>))
      reads this
      ensures values.None? ==> r == (0, Some(NilStore))
      ensures values.Some? && Lower(key) !in values.value ==> r == (def, Some(KeyNotFound))
      ensures values.Some? && Lower(key) in values.value ==> r.1 == None
      ensures values.Some? && Lower(key) in values.value ==>
        match ParseDecimal(values.value[Lower(key)])
        case Some(n) => r.0 == n
        case None => r.0 == 0
    {
      LowerIdempotent(key);
      if values.None? then (0, Some(NilStore))
      else if !ContainsKey(Lower(key)) then (def, Some(KeyNotFound))
      else (Atoi(values.value[Lower(key)]), None)
    }

    /** True exactly when the stored value is "true" or "1"; the caller's
        default with KeyNotFound when absent; false with NilStore on a
        disposed store. */
    function GetConfigParamAsBool(key: string, def: bool): (r: (bool, Option<ConfigError>))
      reads this
      ensures values.None? ==> r == (false, Some(NilStore))
      ensures values.Some? && Lower(key) !in values.value ==> r == (def, Some(KeyNotFound))
      ensures values.Some? && Lower(key) in values.value ==>
        r == (values.value[Lower(key)] == "true" || values.value[Lower(key)] == "1", None)
    {
      LowerIdempotent(key);
      if values.None? then (false, Some(NilStore))
      else if !ContainsKey(Lower(key)) then (def, Some(KeyNotFound))
      else
        var val := values.value[Lower(key)];
        (val == "true" || val == "1", None)
    }

    /** Inserts the entry under the lowered key when no key equal to it
        case-insensitively is present; otherwise reports DuplicateKey and
        leaves the map as it was. */
    method AddNewKeyValueEntry(key: string, value: string) returns (err: Option<ConfigError>)
      requires Valid()
      modifies this
      ensures Valid() && validator == old(validator) && filePath == old(filePath)
      ensures old(values).None? ==> values == old(values) && err == Some(NilStore)
      ensures old(values).Some? && Lower(key) in old(values).value ==>
        values == old(values) && err == Some(DuplicateKey)
      ensures old(values).Some? && Lower(key) !in old(values).value ==>
        values == Some(old(values).value[Lower(key) := value]) && err == None
    {
      if values.None? {
        return Some(NilStore);
      }
      LowerIdempotent(key);
      if !ContainsKey(Lower(key)) {
        values := Some(values.value[Lower(key) := value]);
        return None;
      }
      return Some(DuplicateKey);
    }

    /** Sets the lowered key to the value, whether or not it was present;
        nothing else changes. */
    method UpdateOrAddEntry(key: string, value: string) returns (err: Option<ConfigError>)
      requires Valid()
      modifies this
      ensures Valid() && validator == old(validator) && filePath == old(filePath)
      ensures old(values).None? ==> values == old(values) && err == Some(NilStore)
      ensures old(values).Some? ==> values == Some(old(values).value[Lower(key) := value]) && err == None
    {
      if values.None? {
        return Some(NilStore);
      }
      values := Some(values.value[Lower(key) := value]);
      return None;
    }

    /** Removes the lowered key; an absent key is no error, so deleting twice
        is the same as deleting once; nothing else changes. */
    method DeleteEntry(key: string) returns (err: Option<ConfigError>)
      requires Valid()
      modifies this
      ensures Valid() && validator == old(validator) && filePath == old(filePath)
      ensures old(values).None? ==> values == old(values) && err == Some(NilStore)
      ensures old(values).Some? ==> values == Some(old(values).value - {Lower(key)}) && err == None
    {
      if values.None? {
        return Some(NilStore);
      }
      values := Some(values.value - {Lower(key)});
      return None;
    }

    /** Case-insensitive membership; false on a disposed store. */
    function ContainsKey(key: string): (b: bool)
      reads this
      ensures b <==> values.Some? && Lower(key) in values.value
    {
      if values.None? then false else Lower(key) in values.value
    }

    /** The number of entries; 0 with NilStore on a disposed store. */
    function GetGonfigurationLen(): (r: (int, Option<ConfigError>))
      reads this
      ensures values.None? ==> r == (0, Some(NilStore))
      ensures values.Some? ==> r == (|values.value|, None)
    {
      if values.None? then (0, Some(NilStore)) else (|values.value|, None)
    }

    /** Deletes the entries one key at a time; since every key is in lower
        case, the map ends empty. NilStore on a disposed store. */
    method Clear() returns (err: Option<ConfigError>)
      requires Valid()
      modifies this
      ensures Valid() && validator == old(validator) && filePath == old(filePath)
      ensures old(values).None? ==> values == old(values) && err == Some(NilStore)
      ensures old(values).Some? ==> values == Some(map[]) && err == None
    {
      if values.None? {
        return Some(NilStore);
      }
      var keys := values.value.Keys;
      while keys != {}
        invariant values.Some? && values.value.Keys == keys
        invariant Valid() && validator == old(validator) && filePath == old(filePath)
        decreases keys
      {
        var key :| key in keys;
        LowerCaseIsFixed(key);
        values := Some(values.value - {Lower(key)});
        keys := keys - {key};
      }
      assert values.value == map[];
      return None;
    }

    /** Points the store at another file and reloads it. */
    method ChangePathAndReload(newPath: string, fs: FileSystem) returns (err: Option<ConfigError>)
      requires Valid()
      requires ReloadDefined(values.Some?, validator, newPath, fs)
      modifies this
      ensures Valid() && validator == old(validator) && filePath == newPath
      ensures (values, err) == ReloadResult(old(values).Some?, validator, newPath, fs)
    {
      filePath := newPath;
      err := Reload(fs);
    }

    /** The live map itself, None on a disposed store: its size is what the
        length query reports, every key membership finds is in it, and it holds
        the value the string getter reads for that key. */
    function GetMap(): (m: Option<Values>)
      reads this
      ensures m.None? <==> GetGonfigurationLen().1 == Some(NilStore)
      ensures m.Some? ==> |m.value| == GetGonfigurationLen().0
      ensures forall k :: ContainsKey(k) ==> m.Some? && Lower(k) in m.value
      ensures m.Some? ==> forall k, d :: ContainsKey(k) ==> GetConfigParamAsString(k, d) == (m.value[Lower(k)], None)
    {
      values
    }

    /** Releases the map and the line rule and clears the path; later calls
        see a disposed store. */
    method Dispose()
      modifies this
      ensures Valid()
      ensures values.None? && validator.None? && filePath == ""
    {
      values := None;
      validator := None;
      filePath := "";
    }
  }
}
