/** Text-level rules shared by both copies of the store: ASCII key lowering,
    the `key=value` line split, the line-acceptance rule, and the lenient
    integer reading of a stored value. */
module ConfigText {

  datatype Option<+T> = None | Some(value: T)

  /** The four error sentinels of the source, as an enumeration. */
  datatype ConfigError = NilStore | CantOpenFile | DuplicateKey | KeyNotFound

  /** The live map of a store: lowered key to raw value. */
  type Values = map<string, string>

  /** The lines each readable path yields, already split by the scanner;
      opening a path that is not in the map fails. */
  type FileSystem = map<string, seq<string>>

  // ---------------------------------------------------------------------
  // Keys: lowering
  // ---------------------------------------------------------------------

  predicate IsUpper(c: char) {
    'A' <= c <= 'Z'
  }

  function LowerChar(c: char): char {
    if IsUpper(c) then (c as int + 32) as char else c
  }

  /** A string with no upper-case ASCII letter: the form of every stored key. */
  predicate IsLowerCase(s: string) {
    forall i :: 0 <= i < |s| ==> !IsUpper(s[i])
  }

  /** ASCII lowering, the model of the source's key normalisation: the
      result has the same length and no upper-case letter. */
  function Lower(s: string): (r: string)
    ensures |r| == |s|
    ensures IsLowerCase(r)
  {
    if |s| == 0 then "" else [LowerChar(s[0])] + Lower(s[1..])
  }

  /** Lowering works character by character. */
  lemma {:induction false} LowerChars(s: string)
    ensures forall i :: 0 <= i < |s| ==> Lower(s)[i] == LowerChar(s[i])
    decreases |s|
  {
    if |s| > 0 {
      LowerChars(s[1..]);
      assert forall i :: 1 <= i < |s| ==> Lower(s)[i] == Lower(s[1..])[i - 1];
    }
  }

  /** Lowering leaves a lower-case string as it is. */
  lemma LowerCaseIsFixed(s: string)
    requires IsLowerCase(s)
    ensures Lower(s) == s
  {
    LowerChars(s);
    assert forall i :: 0 <= i < |s| ==> Lower(s)[i] == s[i];
  }

  /** Lowering twice is lowering once: the source lowers a key again inside
      every membership test, and that changes nothing. */
  lemma LowerIdempotent(s: string)
    ensures Lower(Lower(s)) == Lower(s)
  {
    LowerCaseIsFixed(Lower(s));
  }

  // ---------------------------------------------------------------------
  // Splitting on a separator and joining back
  // ---------------------------------------------------------------------

  /** The parts joined with the separator between each two. */
  function Join(parts: seq<string>, sep: char): string {
    if |parts| == 0 then ""
    else if |parts| == 1 then parts[0]
    else parts[0] + [sep] + Join(parts[1..], sep)
  }

  /** Every occurrence of the separator cuts the string; there is always at
      least one part (the empty string gives [""]). */
  function Split(s: string, sep: char): (parts: seq<string>)
    ensures |parts| >= 1
    decreases |s|
  {
    if |s| == 0 then [""]
    else
      var rest := Split(s[1..], sep);
      if s[0] == sep then [""] + rest else [[s[0]] + rest[0]] + rest[1..]
  }

  /** Gluing a character onto the first part glues it onto the join. */
  lemma JoinGlueFirst(c: char, rest: seq<string>, sep: char)
    requires |rest| >= 1
    ensures Join([[c] + rest[0]] + rest[1..], sep) == [c] + Join(rest, sep)
  {
    var parts := [[c] + rest[0]] + rest[1..];
    assert parts[0] == [c] + rest[0] && parts[1..] == rest[1..];
    if |rest| >= 2 {
      assert Join(parts, sep) == ([c] + rest[0]) + [sep] + Join(rest[1..], sep);
    }
  }

  /** The parts hold no separator. */
  lemma {:induction false} SplitHasNoSeparator(s: string, sep: char)
    ensures forall p :: p in Split(s, sep) ==> sep !in p
    decreases |s|
  {
    if |s| > 0 {
      SplitHasNoSeparator(s[1..], sep);
      var rest := Split(s[1..], sep);
      var parts := Split(s, sep);
      if s[0] != sep {
        assert parts == [[s[0]] + rest[0]] + rest[1..];
        assert rest[0] in rest;
        forall p | p in parts
          ensures sep !in p
        {
          if p != parts[0] {
            assert p in rest[1..];
          }
        }
      }
    }
  }

  /** Joining the parts with the separator gives the string back. */
  lemma {:induction false} SplitJoin(s: string, sep: char)
    ensures Join(Split(s, sep), sep) == s
    decreases |s|
  {
    if |s| > 0 {
      SplitJoin(s[1..], sep);
      var rest := Split(s[1..], sep);
      if s[0] == sep {
        assert ([""] + rest)[1..] == rest;
      } else {
        JoinGlueFirst(s[0], rest, sep);
      }
      assert s == [s[0]] + s[1..];
    }
  }

  /** Two or more parts put a separator into their join. */
  lemma JoinHasSeparator(parts: seq<string>, sep: char)
    requires |parts| >= 2
    ensures sep in Join(parts, sep)
  {
    assert Join(parts, sep)[|parts[0]|] == sep;
  }

  /** A key and its raw value. */
  datatype Entry = Entry(key: string, value: string)

  /** The split of an accepted line: the key is the first part of its split
      on `=`, the value is the rest joined back with `=`. */
  function SplitEntry(line: string): Entry {
    var parts := Split(line, '=');
    Entry(parts[0], Join(parts[1..], '='))
  }

  /** The key never holds `=`; when the line has one, key `=` value is the
      line again; when it has none (possible under a custom validator) the
      key is the whole line and the value is empty. */
  lemma SplitEntryParts(line: string)
    ensures '=' !in SplitEntry(line).key
    ensures '=' in line ==> SplitEntry(line).key + "=" + SplitEntry(line).value == line
    ensures '=' !in line ==> SplitEntry(line) == Entry(line, "")
  {
    var parts := Split(line, '=');
    SplitHasNoSeparator(line, '=');
    SplitJoin(line, '=');
    assert parts[0] in parts;
    if |parts| >= 2 {
      JoinHasSeparator(parts, '=');
    }
  }

  /** The key is exactly the text before the first `=` and the value exactly
      the text after it. */
  lemma SplitEntryAtFirstSeparator(line: string, i: nat)
    requires i < |line| && line[i] == '='
    requires '=' !in line[..i]
    ensures SplitEntry(line) == Entry(line[..i], line[i + 1..])
  {
    var e := SplitEntry(line);
    SplitEntryParts(line);
    assert line == e.key + "=" + e.value;
    assert line[|e.key|] == '=';
    assert forall j :: 0 <= j < |e.key| ==> line[j] == e.key[j];
    assert |e.key| == i;
    assert line[..i] == e.key;
    assert line[i + 1..] == e.value;
  }

  /** The key an accepted line is stored under. */
  function LineKey(line: string): string {
    Lower(SplitEntry(line).key)
  }

  // ---------------------------------------------------------------------
  // Which lines are entries
  // ---------------------------------------------------------------------

  function HasPrefix(s: string, prefix: string): bool {
    |prefix| <= |s| && s[..|prefix|] == prefix
  }

  /** The line-acceptance rule: a supplied validator decides alone;
      otherwise the line must not start with `#`, be empty, or lack `=`. */
  function IsConfigLine(validator: Option<string -> bool>, line: string): (b: bool)
    ensures validator.None? && b ==> |line| > 0 && line[0] != '#'
  {
    match validator
    case Some(validate) => validate(line)
    case None => !HasPrefix(line, "#") && line != "" && '=' in line
  }

  /** Without a validator a line is an entry iff it holds `=` and does not
      start with `#`: the emptiness test is redundant, since a line holding
      `=` is never empty. */
  lemma IsConfigLineRule(validator: Option<string -> bool>, line: string)
    ensures validator.Some? ==> IsConfigLine(validator, line) == validator.value(line)
    ensures validator.None? ==> (IsConfigLine(validator, line) <==> '=' in line && line[0] != '#')
  {
    if validator.None? && '=' in line {
      assert line[..1] == [line[0]];
    }
  }

  /** Reload, in either copy of the store, writes into the map, which panics
      in the source when the store is disposed: exactly when the file opens
      and holds an accepted line. Reload is modelled where it does not. */
  predicate ReloadDefined(live: bool, validator: Option<string -> bool>, path: string, fs: FileSystem) {
    live || path !in fs || forall i :: 0 <= i < |fs[path]| ==> !IsConfigLine(validator, fs[path][i])
  }

  // ---------------------------------------------------------------------
  // Decimal integers, as the integer getter reads them
  // ---------------------------------------------------------------------

  predicate IsDigit(c: char) {
    '0' <= c <= '9'
  }

  predicate AllDigits(s: string) {
    forall i :: 0 <= i < |s| ==> IsDigit(s[i])
  }

  /** The value of a string of decimal digits. */
  function DigitsValue(s: string): nat
    requires AllDigits(s)
  {
    if |s| == 0 then 0
    else DigitsValue(s[..|s| - 1]) * 10 + (s[|s| - 1] as int - '0' as int)
  }

  /** The syntax the integer conversion accepts: an optional `+` or `-`
      followed by one or more decimal digits; anything else is a syntax
      error (None). */
  function ParseDecimal(s: string): Option<int> {
    var signed := |s| > 0 && (s[0] == '+' || s[0] == '-');
    var digits := if signed then s[1..] else s;
    if |digits| == 0 || !AllDigits(digits) then None
    else
      var magnitude: int := DigitsValue(digits);
      Some(if signed && s[0] == '-' then -magnitude else magnitude)
  }

  /** The integer getter's reading of a stored value: the conversion's
      result, and zero when the conversion reports a syntax error. */
  function Atoi(s: string): (n: int)
    ensures ParseDecimal(s).None? ==> n == 0
    ensures ParseDecimal(s).Some? ==> n == ParseDecimal(s).value
  {
    match ParseDecimal(s)
    case Some(v) => v
    case None => 0
  }

  function DigitChar(d: nat): char
    requires d < 10
  {
    ('0' as int + d) as char
  }

  /** The shortest decimal digits of a natural number. */
  function NatDigits(n: nat): string
    decreases n
  {
    if n < 10 then [DigitChar(n)] else NatDigits(n / 10) + [DigitChar(n % 10)]
  }

  /** The decimal text of an integer, with `-` for a negative one. */
  function FormatInt(n: int): string {
    if n < 0 then "-" + NatDigits(-n) else NatDigits(n)
  }

  lemma {:induction false} NatDigitsValue(n: nat)
    ensures |NatDigits(n)| >= 1
    ensures AllDigits(NatDigits(n))
    ensures DigitsValue(NatDigits(n)) == n
    decreases n
  {
    if n >= 10 {
      NatDigitsValue(n / 10);
      var s := NatDigits(n);
      assert s[..|s| - 1] == NatDigits(n / 10);
    }
  }

  /** Any integer written in decimal reads back as itself. */
  lemma ParseFormatRoundTrip(n: int)
    ensures ParseDecimal(FormatInt(n)) == Some(n)
    ensures Atoi(FormatInt(n)) == n
  {
    var m: nat := if n < 0 then -n else n;
    NatDigitsValue(m);
    var d := NatDigits(m);
    assert IsDigit(d[0]);
    if n < 0 {
      assert FormatInt(n)[1..] == d;
    }
  }
}
