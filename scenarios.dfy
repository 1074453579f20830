/** Clients of the two stores: typical usage scenarios, and the
    behaviour of the loader as written. */
module Scenarios {
  import opened ConfigText
  import Gonfiguration
  import Configuration

  /** A line written as a key without `=`, not starting with `#`, then `=`
      and a value, is an entry under the default rule and splits back into
      that key and value. */
  lemma DefaultLineEntry(line: string, key: string, value: string)
    requires line == key + "=" + value
    requires '=' !in key && |key| > 0 && key[0] != '#'
    ensures IsConfigLine(None, line)
    ensures SplitEntry(line) == Entry(key, value)
  {
    assert line[..|key|] == key && line[|key|] == '=' && line[|key| + 1..] == value;
    SplitEntryAtFirstSeparator(line, |key|);
    IsConfigLineRule(None, line);
  }

  lemma HostLineEntry(line: string)
    requires line == "mysql.host=localhost"
    ensures IsConfigLine(None, line) && SplitEntry(line) == Entry("mysql.host", "localhost")
  {
    var key := "mysql.host";
    DefaultLineEntry(line, key, "localhost");
  }

  lemma PortLineEntry(line: string)
    requires line == "mysql.port=3306"
    ensures IsConfigLine(None, line) && SplitEntry(line) == Entry("mysql.port", "3306")
  {
    var key := "mysql.port";
    DefaultLineEntry(line, key, "3306");
  }

  lemma WelcomeLineEntry(line: string)
    requires line == "welcome.message=a=b=c"
    ensures IsConfigLine(None, line) && SplitEntry(line) == Entry("welcome.message", "a=b=c")
  {
    var key := "welcome.message";
    DefaultLineEntry(line, key, "a=b=c");
  }

  lemma KeysAreLowerCase(key: string)
    requires key == "mysql.host" || key == "mysql.port" || key == "welcome.message"
    ensures IsLowerCase(key) && Lower(key) == key
  {
    assert IsLowerCase(key) by {
      if key == "mysql.host" {
        HostKeyIsLowerCase(key);
      } else if key == "mysql.port" {
        PortKeyIsLowerCase(key);
      } else {
        MessageKeyIsLowerCase(key);
      }
    }
    LowerCaseIsFixed(key);
  }

  lemma HostKeyIsLowerCase(key: string)
    requires key == "mysql.host"
    ensures IsLowerCase(key)
  {
  }

  lemma PortKeyIsLowerCase(key: string)
    requires key == "mysql.port"
    ensures IsLowerCase(key)
  {
  }

  lemma MessageKeyIsLowerCase(key: string)
    requires key == "welcome.message"
    ensures IsLowerCase(key)
  {
  }

  lemma DistinctKeys(host: string, port: string)
    requires host == "mysql.host" && port == "mysql.port"
    ensures host != port
  {
    assert host[6] != port[6];
  }

  /** Two accepted lines with distinct lower-case keys load as two entries. */
  lemma TwoEntriesLoad(l1: string, k1: string, v1: string, l2: string, k2: string, v2: string)
    requires IsConfigLine(None, l1) && SplitEntry(l1) == Entry(k1, v1) && IsLowerCase(k1)
    requires IsConfigLine(None, l2) && SplitEntry(l2) == Entry(k2, v2) && IsLowerCase(k2)
    requires k1 != k2
    ensures Gonfiguration.StrictLoad([l1, l2], None) == (map[k1 := v1, k2 := v2], None)
    ensures |Gonfiguration.StrictLoad([l1, l2], None).0| == 2
  {
    var lines := [l1, l2];
    LowerCaseIsFixed(k1);
    LowerCaseIsFixed(k2);
    Gonfiguration.StrictLoadNext(lines, 0, None);
    Gonfiguration.StrictLoadNext(lines, 1, None);
    assert lines[..2] == lines;
  }

  lemma MysqlFileLoads(host: string, port: string)
    requires host == "mysql.host=localhost" && port == "mysql.port=3306"
    ensures Gonfiguration.StrictLoad([host, port], None) ==
      (map["mysql.host" := "localhost", "mysql.port" := "3306"], None)
    ensures |Gonfiguration.StrictLoad([host, port], None).0| == 2
  {
    var hostKey, portKey, hostValue, portValue := "mysql.host", "mysql.port", "localhost", "3306";
    HostLineEntry(host);
    PortLineEntry(port);
    KeysAreLowerCase(hostKey);
    KeysAreLowerCase(portKey);
    DistinctKeys(hostKey, portKey);
    TwoEntriesLoad(host, hostKey, hostValue, port, portKey, portValue);
  }

  lemma ReadsAsInt3306(value: string)
    requires value == "3306"
    ensures Atoi(value) == 3306
  {
    assert NatDigits(3) == "3";
    assert NatDigits(33) == "33";
    assert NatDigits(330) == "330";
    assert NatDigits(3306) == value;
    ParseFormatRoundTrip(3306);
  }

  lemma LowersTo(key: string, lowered: string)
    requires key == "MYSQL.HOST" && lowered == "mysql.host"
    ensures Lower(key) == lowered
  {
    LowerChars(key);
  }

  /** The store read from a file holding `mysql.host=localhost` and
      `mysql.port=3306`, made by the constructor and then reloaded. */
  method LoadMysqlFile() returns (store: Gonfiguration.Gonfiguration)
    ensures store.values == Some(map["mysql.host" := "localhost", "mysql.port" := "3306"])
  {
    var hostLine, portLine := "mysql.host=localhost", "mysql.port=3306";
    var path := "app.conf";
    var fs: FileSystem := map[path := [hostLine, portLine]];
    MysqlFileLoads(hostLine, portLine);
    store := new Gonfiguration.Gonfiguration(path, None);
    var _ := store.Reload(fs);
  }

  /** The host is found under the upper-case spelling of its key. */
  method ReadHost(store: Gonfiguration.Gonfiguration, key: string) returns (host: (string, Option<ConfigError>))
    requires store.values == Some(map["mysql.host" := "localhost", "mysql.port" := "3306"])
    requires Lower(key) == "mysql.host"
    ensures host == ("localhost", None)
  {
    host := store.GetConfigParamAsString(key, "x");
  }

  /** The port reads as an integer. */
  method ReadPort(store: Gonfiguration.Gonfiguration) returns (port: (int, Option<ConfigError>))
    requires store.values == Some(map["mysql.host" := "localhost", "mysql.port" := "3306"])
    ensures port == (3306, None)
  {
    var portKey, stored := "mysql.port", "3306";
    ReadsAsInt3306(stored);
    KeysAreLowerCase(portKey);
    port := store.GetConfigParamAsInt(portKey, 0);
  }

  /** A file with `mysql.host=localhost` and `mysql.port=3306`: the host is
      found under an upper-case key and the port reads as an integer. */
  method MysqlScenario() returns (host: (string, Option<ConfigError>), port: (int, Option<ConfigError>))
    ensures host == ("localhost", None)
    ensures port == (3306, None)
  {
    var store := LoadMysqlFile();
    var upper, lower := "MYSQL.HOST", "mysql.host";
    LowersTo(upper, lower);
    host := ReadHost(store, upper);
    port := ReadPort(store);
  }

  /** One accepted line with a lower-case key loads as one entry. */
  lemma OneEntryLoads(line: string, key: string, value: string)
    requires IsConfigLine(None, line) && SplitEntry(line) == Entry(key, value) && IsLowerCase(key)
    ensures Configuration.LastWinsLoad([line], None) == map[key := value]
  {
    LowerCaseIsFixed(key);
    Configuration.LastWinsLoadNext([line], 0, None);
    assert [line][..1] == [line];
  }

  lemma WelcomeFileLoads(line: string)
    requires line == "welcome.message=a=b=c"
    ensures Configuration.LastWinsLoad([line], None) == map["welcome.message" := "a=b=c"]
  {
    var key, value := "welcome.message", "a=b=c";
    WelcomeLineEntry(line);
    KeysAreLowerCase(key);
    OneEntryLoads(line, key, value);
  }

  /** The store read from a file whose one line is `welcome.message=a=b=c`,
      made by the constructor and then reloaded. */
  method LoadWelcomeFile() returns (store: Configuration.Configuration)
    ensures store.values == Some(map["welcome.message" := "a=b=c"])
  {
    var line := "welcome.message=a=b=c";
    var path := "app.conf";
    var fs: FileSystem := map[path := [line]];
    WelcomeFileLoads(line);
    store := new Configuration.Configuration(path, None);
    var _ := store.Reload(fs);
  }

  /** A value holding `=` keeps every `=` after the first. */
  method ValueKeepsSeparators() returns (message: (string, Option<ConfigError>))
    ensures message == ("a=b=c", None)
  {
    var store := LoadWelcomeFile();
    var key := "welcome.message";
    KeysAreLowerCase(key);
    message := store.GetConfigParamAsString(key, "");
  }

  /** Adding a key twice, the second time in another case, fails the second
      time and keeps the first value. */
  method AddTwice() returns (first: Option<ConfigError>, second: Option<ConfigError>, kept: (string, Option<ConfigError>))
    ensures first == None && second == Some(DuplicateKey)
    ensures kept == ("one", None)
  {
    var store := new Gonfiguration.Gonfiguration("app.conf", None);
    first := store.AddNewKeyValueEntry("Key", "one");
    assert Lower("Key") == "key" && Lower("KEY") == "key";
    second := store.AddNewKeyValueEntry("KEY", "two");
    kept := store.GetConfigParamAsString("key", "");
  }

  /** Deleting a key twice: the source reports no error either time. */
  method DeleteTwice() returns (first: Option<ConfigError>, second: Option<ConfigError>, present: bool)
    ensures first == None && second == None && !present
  {
    var store := new Gonfiguration.Gonfiguration("app.conf", None);
    var _ := store.UpdateOrAddEntry("key", "one");
    first := store.DeleteEntry("key");
    second := store.DeleteEntry("key");
    present := store.ContainsKey("key");
  }

  /** Reloading the two-line file leaves two entries. */
  method ReloadMysqlFile(store: Gonfiguration.Gonfiguration, fs: FileSystem) returns (len: (int, Option<ConfigError>))
    requires store.Valid() && store.values.Some? && store.validator.None?
    requires store.filePath in fs && fs[store.filePath] == ["mysql.host=localhost", "mysql.port=3306"]
    modifies store
    ensures store.Valid() && store.values.Some? && store.validator.None? && store.filePath == old(store.filePath)
    ensures len == (2, None)
  {
    var hostLine, portLine := "mysql.host=localhost", "mysql.port=3306";
    MysqlFileLoads(hostLine, portLine);
    var _ := store.Reload(fs);
    len := store.GetGonfigurationLen();
  }

  /** Clearing empties the store; reloading restores one entry per line. */
  method ClearThenReload() returns (afterClear: (int, Option<ConfigError>), afterReload: (int, Option<ConfigError>))
    ensures afterClear == (0, None)
    ensures afterReload == (2, None)
  {
    var hostLine, portLine := "mysql.host=localhost", "mysql.port=3306";
    var path := "app.conf";
    var fs: FileSystem := map[path := [hostLine, portLine]];
    var store := new Gonfiguration.Gonfiguration(path, None);
    var _ := ReloadMysqlFile(store, fs);
    var _ := store.Clear();
    afterClear := store.GetGonfigurationLen();
    afterReload := ReloadMysqlFile(store, fs);
  }

  /** Only "true" and "1" read as true; a non-numeric value reads as zero
      without an error. */
  method LenientReadings() returns (yes: (bool, Option<ConfigError>), one: (bool, Option<ConfigError>), notNumber: (int, Option<ConfigError>))
    ensures yes == (false, None)
    ensures one == (true, None)
    ensures notNumber == (0, None)
  {
    var store := new Configuration.Configuration("app.conf", None);
    var flag, other, yesText, oneText := "flag", "other", "yes", "1";
    PlainKeys(flag, other);
    var _ := store.UpdateOrAddEntry(flag, yesText);
    var _ := store.UpdateOrAddEntry(other, oneText);
    yes := store.GetConfigParamAsBool(flag, true);
    one := store.GetConfigParamAsBool(other, false);
    NotANumber(yesText);
    notNumber := store.GetConfigParamAsInt(flag, 7);
  }

  lemma PlainKeys(flag: string, other: string)
    requires flag == "flag" && other == "other"
    ensures Lower(flag) == flag && Lower(other) == other && flag != other
  {
    assert IsLowerCase(flag) && IsLowerCase(other);
    LowerCaseIsFixed(flag);
    LowerCaseIsFixed(other);
  }

  lemma NotANumber(text: string)
    requires text == "yes"
    ensures Atoi(text) == 0
  {
    assert !IsDigit(text[0]);
  }

  /** After Dispose every getter reports NilStore with the zero value, and
      membership is false. */
  method DisposedStore() returns (s: (string, Option<ConfigError>), b: (bool, Option<ConfigError>), n: (int, Option<ConfigError>), present: bool)
    ensures s == ("", Some(NilStore)) && b == (false, Some(NilStore)) && n == (0, Some(NilStore))
    ensures !present
  {
    var store := new Configuration.Configuration("app.conf", None);
    var _ := store.UpdateOrAddEntry("key", "1");
    store.Dispose();
    s := store.GetConfigParamAsString("key", "d");
    b := store.GetConfigParamAsBool("key", true);
    n := store.GetConfigParamAsInt("key", 5);
    present := store.ContainsKey("key");
  }

  /** The loader as written reloads its receiver: asked for `app.conf`, it
      returns a store whose map is empty, although that file holds an entry. */
  method LoadGonfigurationReturnsEmptyStore() returns (loaded: Gonfiguration.Gonfiguration?, err: Option<ConfigError>)
    ensures err == None && loaded != null && loaded.values == Some(map[])
  {
    var fs: FileSystem := map["app.conf" := ["mysql.host=localhost"], "other.conf" := []];
    var receiver := new Gonfiguration.Gonfiguration("other.conf", None);
    loaded, err := receiver.LoadGonfiguration("app.conf", None, fs);
  }

  /** The same in the `configuration` copy. */
  method LoadConfigurationReturnsEmptyStore() returns (loaded: Configuration.Configuration?, err: Option<ConfigError>)
    ensures err == None && loaded != null && loaded.values == Some(map[])
  {
    var fs: FileSystem := map["app.conf" := ["mysql.host=localhost"], "other.conf" := []];
    var receiver := new Configuration.Configuration("other.conf", None);
    loaded, err := receiver.LoadConfiguration("app.conf", None, fs);
  }
}
