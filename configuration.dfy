/** The `configuration` copy of the store: loading overwrites a key that is
    already present, so the last accepted line with a key wins. */
module Configuration {
  import opened ConfigText

  // ---------------------------------------------------------------------
  // Loading, as a fold over the lines of the file
  // ---------------------------------------------------------------------

  /** The map after the load loop has read `lines`, starting from an empty
      map: each accepted line is split and stored under its lowered key,
      overwriting what an earlier line stored there. */
  function LastWinsLoad(lines: seq<string>, validator: Option<string -> bool>): (m: Values)
    ensures forall k :: k in m ==> IsLowerCase(k)
    decreases |lines|
  {
    if |lines| == 0 then map[]
    else
      var prev := LastWinsLoad(lines[..|lines| - 1], validator);
      var line := lines[|lines| - 1];
      if IsConfigLine(validator, line) then prev[LineKey(line) := SplitEntry(line).value] else prev
  }

  /** One more line read by the load loop. */
  lemma LastWinsLoadNext(lines: seq<string>, i: nat, validator: Option<string -> bool>)
    requires i < |lines|
    ensures LastWinsLoad(lines[..i + 1], validator) ==
      if IsConfigLine(validator, lines[i])
      then LastWinsLoad(lines[..i], validator)[LineKey(lines[i]) := SplitEntry(lines[i]).value]
      else LastWinsLoad(lines[..i], validator)
  {
    assert lines[..i + 1][..i] == lines[..i];
  }

  /** The keys of the map are exactly the lowered keys of the accepted lines. */
  lemma {:induction false} LastWinsLoadKeys(lines: seq<string>, validator: Option<string -> bool>)
    ensures forall i :: 0 <= i < |lines| && IsConfigLine(validator, lines[i]) ==>
      LineKey(lines[i]) in LastWinsLoad(lines, validator)
    ensures forall k :: k in LastWinsLoad(lines, validator) ==>
      exists i :: 0 <= i < |lines| && IsConfigLine(validator, lines[i]) && LineKey(lines[i]) == k
    decreases |lines|
  {
    if |lines| > 0 {
      var n := |lines| - 1;
      var prefix := lines[..n];
      var prev := LastWinsLoad(prefix, validator);
      LastWinsLoadKeys(prefix, validator);
      LastWinsLoadNext(lines, n, validator);
      assert lines[..n + 1] == lines;
      var m := LastWinsLoad(lines, validator);
      assert prev.Keys <= m.Keys;
      forall i | 0 <= i < |lines| && IsConfigLine(validator, lines[i])
        ensures LineKey(lines[i]) in m
      {
        if i < n {
          assert prefix[i] == lines[i];
        }
      }
      forall k | k in m
        ensures exists i :: 0 <= i < |lines| && IsConfigLine(validator, lines[i]) && LineKey(lines[i]) == k
      {
        if k in prev {
          var i :| 0 <= i < n && IsConfigLine(validator, prefix[i]) && LineKey(prefix[i]) == k;
          assert prefix[i] == lines[i];
        } else {
          assert IsConfigLine(validator, lines[n]) && LineKey(lines[n]) == k;
        }
      }
    }
  }

  /** The value under a key is the value of the last accepted line with
      that key: a line none of whose later accepted lines shares its
      lowered key has its value stored. */
  lemma {:induction false} LastWinsLoadValue(lines: seq<string>, validator: Option<string -> bool>, i: nat)
    requires i < |lines| && IsConfigLine(validator, lines[i])
    requires forall j :: i < j < |lines| && IsConfigLine(validator, lines[j]) ==> LineKey(lines[j]) != LineKey(lines[i])
    ensures LineKey(lines[i]) in LastWinsLoad(lines, validator)
    ensures LastWinsLoad(lines, validator)[LineKey(lines[i])] == SplitEntry(lines[i]).value
    decreases |lines|
  {
    var n := |lines| - 1;
    var prefix := lines[..n];
    if i < n {
      forall j | i < j < |prefix| && IsConfigLine(validator, prefix[j])
        ensures LineKey(prefix[j]) != LineKey(prefix[i])
      {
        assert prefix[j] == lines[j];
      }
      LastWinsLoadValue(prefix, validator, i);
    }
  }

  // ---------------------------------------------------------------------
  // Reload, on the values it reads and writes
  // ---------------------------------------------------------------------

  /** The map and the error Reload leaves, given whether the store was live:
      the map is emptied first, a path that cannot be opened gives
      CantOpenFile, and otherwise every accepted line is stored and the
      reload succeeds. A disposed store stays disposed. */
  function ReloadResult(live: bool, validator: Option<string -> bool>, path: string, fs: FileSystem): (Option<Values>, Option<ConfigError>)
    requires ReloadDefined(live, validator, path, fs)
  {
    if path !in fs then (if live then Some(map[]) else None, Some(CantOpenFile))
    else if !live then (None, None)
    else (Some(LastWinsLoad(fs[path], validator)), None)
  }

  // ---------------------------------------------------------------------
  // The store
  // ---------------------------------------------------------------------

  class Configuration {
    /** The map, or None once the store is disposed (a nil map). */
    var values: Option<Values>
    /** The custom line rule, or None for the default rule. */
    var validator: Option<string -> bool>
    var filePath: string

    /** Every stored key is in lower case. */
    ghost predicate Valid()
      reads this
    {
      values.Some? ==> forall k :: k in values.value ==> IsLowerCase(k)
    }

    /** A new store with an empty map, the given path and line rule. */
    constructor (path: string, validateFunction: Option<string -> bool>)
      ensures Valid()
      ensures values == Some(map[]) && validator == validateFunction && filePath == path
    {
      values := Some(map[]);
      validator := validateFunction;
      filePath := path;
    }

    /** As written in the source: builds a new store for `path`, but reloads
        the receiver and returns the new store with its map still empty. */
    method LoadConfiguration(path: string, validateFunction: Option<string -> bool>, fs: FileSystem)
      returns (loaded: Configuration?, err: Option<ConfigError>)
      requires Valid()
      requires ReloadDefined(values.Some?, validator, filePath, fs)
      modifies this
      ensures Valid() && validator == old(validator) && filePath == old(filePath)
      ensures (values, err) == ReloadResult(old(values).Some?, validator, filePath, fs)
      ensures loaded == null <==> err.Some?
      ensures loaded != null ==> fresh(loaded) && loaded.Valid() && loaded.values == Some(map[])
      ensures loaded != null ==> loaded.validator == validateFunction && loaded.filePath == path
    {
      var created := new Configuration(path, validateFunction);
      var reloadError := Reload(fs);
      if reloadError.Some? {
        return null, reloadError;
      }
      return created, None;
    }

    /** The loader as evidently intended: the new store is the one loaded.
        On an error the caller gets no store, as in the source. */
    static method Load(path: string, validateFunction: Option<string -> bool>, fs: FileSystem)
      returns (loaded: Configuration?, err: Option<ConfigError>)
      ensures path !in fs ==> loaded == null && err == Some(CantOpenFile)
      ensures path in fs ==> err == None
      ensures loaded == null <==> err.Some?
      ensures loaded != null ==> fresh(loaded) && loaded.Valid() && path in fs
      ensures loaded != null ==> loaded.values == Some(LastWinsLoad(fs[path], validateFunction))
      ensures loaded != null ==> loaded.validator == validateFunction && loaded.filePath == path
    {
      var store := new Configuration(path, validateFunction);
      var reloadError := store.Reload(fs);
      if reloadError.Some? {
        return null, reloadError;
      }
      return store, None;
    }

    /** Empties the map, then stores the file's accepted lines one by one;
        a key seen again is overwritten, so the last such line wins. */
    method Reload(fs: FileSystem) returns (err: Option<ConfigError>)
      requires Valid()
      requires ReloadDefined(values.Some?, validator, filePath, fs)
      modifies this
      ensures Valid() && validator == old(validator) && filePath == old(filePath)
      ensures (values, err) == ReloadResult(old(values).Some?, validator, filePath, fs)
    {
      var _ := Clear();
      if filePath !in fs {
        return Some(CantOpenFile);
      }
      var lines := fs[filePath];
      var i := 0;
      while i < |lines|
        invariant 0 <= i <= |lines|
        invariant Valid() && validator == old(validator) && filePath == old(filePath)
        invariant values.Some? == old(values).Some?
        invariant values.Some? ==> values.value == LastWinsLoad(lines[..i], validator)
      {
        var line := lines[i];
        LastWinsLoadNext(lines, i, validator);
        if IsConfigLine(validator, line) {
          var entry := SplitEntry(line);
          values := Some(values.value[Lower(entry.key) := entry.value]);
        }
        i := i + 1;
      }
      assert lines[..i] == lines;
      return None;
    }

    /** The value stored under the key, case-insensitively; the caller's
        default with KeyNotFound when it is absent; "" with NilStore on a
        disposed store. */
    function GetConfigParamAsString(key: string, def: string): (r: (string, Option<ConfigError>))
      reads this
      ensures values.None? ==> r == ("", Some(NilStore))
      ensures values.Some? && Lower(key) !in values.value ==> r == (def, Some(KeyNotFound))
      ensures values.Some? && Lower(key) in values.value ==> r == (values.value[Lower(key)], None)
    {
      LowerIdempotent(key);
      if values.None? then ("", Some(NilStore))
      else if !ContainsKey(Lower(key)) then (def, Some(KeyNotFound))
      else (values.value[Lower(key)], None)
    }

    /** The stored value read as a decimal integer, zero when it is not one;
        the caller's default with KeyNotFound when absent; 0 with NilStore on
        a disposed store. */
    function GetConfigParamAsInt(key: string, def: int): (r: (int, Option<ConfigError>))
      reads this
      ensures values.None? ==> r == (0, Some(NilStore))
      ensures values.Some? && Lower(key) !in values.value ==> r == (def, Some(KeyNotFound))
      ensures values.Some? && Lower(key) in values.value ==> r.1 == None
      ensures values.Some? && Lower(key) in values.value ==>
        match ParseDecimal(values.value[Lower(key)])
        case Some(n) => r.0 == n
        case None => r.0 == 0
    {
      LowerIdempotent(key);
      if values.None? then (0, Some(NilStore))
      else if !ContainsKey(Lower(key)) then (def, Some(KeyNotFound))
      else (Atoi(values.value[Lower(key)]), None)
    }

    /** True exactly when the stored value is "true" or "1"; the caller's
        default with KeyNotFound when absent; false with NilStore on a
        disposed store. */
    function GetConfigParamAsBool(key: string, def: bool): (r: (bool, Option<ConfigError>))
      reads this
      ensures values.None? ==> r == (false, Some(NilStore))
      ensures values.Some? && Lower(key) !in values.value ==> r == (def, Some(KeyNotFound))
      ensures values.Some? && Lower(key) in values.value ==>
        r == (values.value[Lower(key)] == "true" || values.value[Lower(key)] == "1", None)
    {
      LowerIdempotent(key);
      if values.None? then (false, Some(NilStore))
      else if !ContainsKey(Lower(key)) then (def, Some(KeyNotFound))
      else
        var val := values.value[Lower(key)];
        (val == "true" || val == "1", None)
    }

    /** Inserts the entry under the lowered key when no key equal to it
        case-insensitively is present; otherwise reports DuplicateKey and
        leaves the map as it was. */
    method AddNewKeyValueEntry(key: string, value: string) returns (err: Option<ConfigError>)
      requires Valid()
      modifies this
      ensures Valid() && validator == old(validator) && filePath == old(filePath)
      ensures old(values).None? ==> values == old(values) && err == Some(NilStore)
      ensures old(values).Some? && Lower(key) in old(values).value ==>
        values == old(values) && err == Some(DuplicateKey)
      ensures old(values).Some? && Lower(key) !in old(values).value ==>
        values == Some(old(values).value[Lower(key) := value]) && err == None
    {
      if values.None? {
        return Some(NilStore);
      }
      LowerIdempotent(key);
      if !ContainsKey(Lower(key)) {
        values := Some(values.value[Lower(key) := value]);
        return None;
      }
      return Some(DuplicateKey);
    }

    /** Sets the lowered key to the value, whether or not it was present;
        nothing else changes. */
    method UpdateOrAddEntry(key: string, value: string) returns (err: Option<ConfigError>)
      requires Valid()
      modifies this
      ensures Valid() && validator == old(validator) && filePath == old(filePath)
      ensures old(values).None? ==> values == old(values) && err == Some(NilStore)
      ensures old(values).Some? ==> values == Some(old(values).value[Lower(key) := value]) && err == None
    {
      if values.None? {
        return Some(NilStore);
      }
      values := Some(values.value[Lower(key) := value]);
      return None;
    }

    /** Removes the lowered key; an absent key is no error, so deleting twice
        is the same as deleting once; nothing else changes. */
    method DeleteEntry(key: string) returns (err: Option<ConfigError>)
      requires Valid()
      modifies this
      ensures Valid() && validator == old(validator) && filePath == old(filePath)
      ensures old(values).None? ==> values == old(values) && err == Some(NilStore)
      ensures old(values).Some? ==> values == Some(old(values).value - {Lower(key)}) && err == None
    {
      if values.None? {
        return Some(NilStore);
      }
      values := Some(values.value - {Lower(key)});
      return None;
    }

    /** Case-insensitive membership; false on a disposed store. */
    function ContainsKey(key: string): (b: bool)
      reads this
      ensures b <==> values.Some? && Lower(key) in values.value
    {
      if values.None? then false else Lower(key) in values.value
    }

    /** The number of entries; 0 with NilStore on a disposed store. */
    function GetConfigurationLen(): (r: (int, Option<ConfigError>))
      reads this
      ensures values.None? ==> r == (0, Some(NilStore))
      ensures values.Some? ==> r == (|values.value|, None)
    {
      if values.None? then (0, Some(NilStore)) else (|values.value|, None)
    }

    /** Deletes the entries one key at a time; since every key is in lower
        case, the map ends empty. NilStore on a disposed store. */
    method Clear() returns (err: Option<ConfigError>)
      requires Valid()
      modifies this
      ensures Valid() && validator == old(validator) && filePath == old(filePath)
      ensures old(values).None? ==> values == old(values) && err == Some(NilStore)
      ensures old(values).Some? ==> values == Some(map[]) && err == None
    {
      if values.None? {
        return Some(NilStore);
      }
      var keys := values.value.Keys;
      while keys != {}
        invariant values.Some? && values.value.Keys == keys
        invariant Valid() && validator == old(validator) && filePath == old(filePath)
        decreases keys
      {
        var key :| key in keys;
        LowerCaseIsFixed(key);
        values := Some(values.value - {Lower(key)});
        keys := keys - {key};
      }
      assert values.value == map[];
      return None;
    }

    /** Points the store at another file and reloads it. */
    method ChangePathAndReload(newPath: string, fs: FileSystem) returns (err: Option<ConfigError>)
      requires Valid()
      requires ReloadDefined(values.Some?, validator, newPath, fs)
      modifies this
      ensures Valid() && validator == old(validator) && filePath == newPath
      ensures (values, err) == ReloadResult(old(values).Some?, validator, newPath, fs)
    {
      filePath := newPath;
      err := Reload(fs);
    }

    /** The live map itself, None on a disposed store: its size is what the
        length query reports, every key membership finds is in it, and it holds
        the value the string getter reads for that key. */
    function GetMap(): (m: Option<Values>)
      reads this
      ensures m.None? <==> GetConfigurationLen().1 == Some(NilStore)
      ensures m.Some? ==> |m.value| == GetConfigurationLen().0
      ensures forall k :: ContainsKey(k) ==> m.Some? && Lower(k) in m.value
      ensures m.Some? ==> forall k, d :: ContainsKey(k) ==> GetConfigParamAsString(k, d) == (m.value[Lower(k)], None)
    {
      values
    }

    /** Releases the map and the line rule and clears the path; later calls
        see a disposed store. */
    method Dispose()
      modifies this
      ensures Valid()
      ensures values.None? && validator.None? && filePath == ""
    {
      values := None;
      validator := None;
      filePath := "";
    }
  }
}
