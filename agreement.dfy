/** How the two copies' loaders relate: on a file without case-insensitive
    duplicate keys they load the same map, and only the strict one can fail. */
module LoadAgreement {
  import opened ConfigText
  import Gonfiguration
  import Configuration

  /** Without duplicates, the strict load succeeds with the map the
      last-wins load builds. */
  lemma {:induction false} StrictAgreesWithLastWins(lines: seq<string>, validator: Option<string -> bool>)
    requires Gonfiguration.NoDuplicates(lines, validator)
    ensures Gonfiguration.StrictLoad(lines, validator) == (Configuration.LastWinsLoad(lines, validator), None)
    decreases |lines|
  {
    if |lines| > 0 {
      var n := |lines| - 1;
      Gonfiguration.NoDuplicatesPrefix(lines, n, validator);
      StrictAgreesWithLastWins(lines[..n], validator);
      Gonfiguration.StrictLoadNext(lines, n, validator);
      Configuration.LastWinsLoadNext(lines, n, validator);
      assert lines[..n + 1] == lines;
      if IsConfigLine(validator, lines[n]) {
        Gonfiguration.LastKeyIsNew(lines, validator);
      }
    }
  }

  /** Whatever the lines, the strict load never holds a key that the
      last-wins load lacks: stopping early only leaves keys out. */
  lemma {:induction false} StrictKeysAreLastWinsKeys(lines: seq<string>, validator: Option<string -> bool>)
    ensures Gonfiguration.StrictLoad(lines, validator).0.Keys <= Configuration.LastWinsLoad(lines, validator).Keys
    decreases |lines|
  {
    if |lines| > 0 {
      var n := |lines| - 1;
      StrictKeysAreLastWinsKeys(lines[..n], validator);
      Gonfiguration.StrictLoadNext(lines, n, validator);
      Configuration.LastWinsLoadNext(lines, n, validator);
      assert lines[..n + 1] == lines;
    }
  }
}
