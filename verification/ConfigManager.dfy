/** The configuration file of src/ConfigManager.cpp: printer, parser and the condition under which they are inverse. */
module ConfigManager {

  type Config = map<string, string>

  predicate Blank(c: char) {
    c == ' ' || c == '\t'
  }

  // ----- Trimming -----

  /** Position of the first character that is not blank. */
  function FirstNotBlank(s: string): (p: nat)
    ensures p <= |s| && (p < |s| ==> !Blank(s[p]))
    ensures forall i :: 0 <= i < p ==> Blank(s[i])
  {
    if s == [] || !Blank(s[0]) then 0 else 1 + FirstNotBlank(s[1..])
  }

  /** One past the last character that is not blank. */
  function EndNotBlank(s: string): (q: nat)
    ensures q <= |s| && (q > 0 ==> !Blank(s[q - 1]))
    ensures forall i :: q <= i < |s| ==> Blank(s[i])
  {
    if s == [] || !Blank(s[|s| - 1]) then |s| else EndNotBlank(s[..|s| - 1])
  }

  function Trim(s: string): string {
    var p, q := FirstNotBlank(s), EndNotBlank(s);
    if p < q then s[p..q] else ""
  }

  predicate Trimmed(s: string) {
    s == [] || (!Blank(s[0]) && !Blank(s[|s| - 1]))
  }

  lemma TrimFixed(s: string)
    requires Trimmed(s)
    ensures Trim(s) == s
  {
    assert s == s[0..|s|];
  }

  /** The result is trimmed, what is cut off is blank, and exactly the trimmed texts are left alone: trimming is
      idempotent. */
  lemma TrimMeaning(s: string)
    ensures Trimmed(Trim(s)) && Trim(Trim(s)) == Trim(s)
    ensures Trim(s) == s <==> Trimmed(s)
    ensures Trimmed(s) <==> s == [] || (s[0] !in " \t" && s[|s| - 1] !in " \t")
    ensures exists i: nat, j: nat :: i <= j <= |s| && Trim(s) == s[i..j] && (forall k :: 0 <= k < i || j <= k < |s| ==> s[k] in " \t")
  {
    assert forall c :: Blank(c) <==> c in " \t";
    var p, q := FirstNotBlank(s), EndNotBlank(s);
    var t := Trim(s);
    if p < q {
      assert t == s[p..q];
    } else {
      assert t == s[|s|..|s|];
    }
    TrimFixed(t);
  }

  lemma TrimKeeps(s: string, c: char)
    requires c !in s
    ensures c !in Trim(s)
  {
    hide Trim;
    TrimMeaning(s);
    var i: nat, j: nat :| i <= j <= |s| && Trim(s) == s[i..j] && forall k :: 0 <= k < i || j <= k < |s| ==> s[k] in " \t";
  }

  // ----- Lines -----

  function Find(s: string, c: char): (p: nat)
    ensures p <= |s| && (p < |s| ==> s[p] == c) && c !in s[..p]
  {
    if s == [] || s[0] == c then 0 else 1 + Find(s[1..], c)
  }

  lemma {:induction false} FindAt(a: string, c: char, b: string)
    requires c !in a
    ensures Find(a + [c] + b, c) == |a|
  {
    if a != [] {
      assert (a + [c] + b)[1..] == a[1..] + [c] + b;
      FindAt(a[1..], c, b);
    }
  }

  /** One getline: the text up to the next newline, and the rest of the file. */
  function NextLine(text: string): (string, string)
    requires text != []
  {
    var p := Find(text, '\n');
    (text[..p], if p < |text| then text[p + 1..] else [])
  }

  /** A line without '=' is skipped; the key ends at the first '='. */
  function WithLine(config: Config, line: string): Config {
    var p := Find(line, '=');
    if p == |line| then config else config[Trim(line[..p]) := Trim(line[p + 1..])]
  }

  /** A line with an equals sign sets one entry, both sides of the first one stripped of spaces and tabs at their ends;
      any other line changes nothing. */
  lemma LineRead(config: Config, key: string, value: string, line: string)
    requires '=' !in key && '=' !in line
    ensures WithLine(config, key + "=" + value) == config[Trim(key) := Trim(value)] && WithLine(config, line) == config
  {
    hide Find, Trim;
    var entry := key + "=" + value;
    FindAt(key, '=', value);
    assert entry[..|key|] == key && entry[|key| + 1..] == value;
    assert Find(line, '=') == |line|;
  }

  function Loaded(config: Config, text: string): Config
    decreases |text|
  {
    if text == [] then config
    else
      var (line, rest) := NextLine(text);
      Loaded(WithLine(config, line), rest)
  }

  function Printed(config: Config, keys: seq<string>): string
    requires forall k :: k in keys ==> k in config
  {
    if keys == [] then [] else keys[0] + "=" + config[keys[0]] + "\n" + Printed(config, keys[1..])
  }

  // ----- The round trip -----

  predicate CleanKey(key: string) {
    Trimmed(key) && '=' !in key && '\n' !in key
  }

  predicate CleanValue(value: string) {
    Trimmed(value) && '\n' !in value
  }

  ghost predicate Clean(config: Config) {
    forall key :: key in config ==> CleanKey(key) && CleanValue(config[key])
  }

  lemma LineCut(line: string, rest: string)
    requires '\n' !in line
    ensures NextLine(line + "\n" + rest) == (line, rest)
  {
    hide Find;
    var text := line + "\n" + rest;
    FindAt(line, '\n', rest);
    assert text[..|line|] == line && text[|line| + 1..] == rest;
  }

  lemma EntryRead(config: Config, key: string, value: string)
    requires CleanKey(key) && CleanValue(value)
    ensures WithLine(config, key + "=" + value) == config[key := value]
  {
    hide Find, Trim, Trimmed;
    var line := key + "=" + value;
    FindAt(key, '=', value);
    assert line[..|key|] == key && line[|key| + 1..] == value;
    TrimMeaning(key);
    TrimMeaning(value);
  }

  lemma LineRoundTrip(config: Config, key: string, value: string, rest: string)
    requires CleanKey(key) && CleanValue(value)
    ensures Loaded(config, key + "=" + value + "\n" + rest) == Loaded(config[key := value], rest)
  {
    hide NextLine, WithLine, Trimmed;
    var line := key + "=" + value;
    LineCut(line, rest);
    EntryRead(config, key, value);
  }

  ghost predicate Order(keys: seq<string>, config: Config) {
    (forall key :: key in keys <==> key in config)
    && forall i, j :: 0 <= i < j < |keys| ==> keys[i] != keys[j]
  }

  function Entries(config: Config, keys: seq<string>): Config
    requires forall k :: k in keys ==> k in config
  {
    map k | k in keys :: config[k]
  }

  lemma EntriesStep(start: Config, config: Config, keys: seq<string>)
    requires forall k :: k in keys ==> k in config
    ensures keys == [] ==> Loaded(start, []) == start + Entries(config, keys)
    ensures keys != [] ==> start[keys[0] := config[keys[0]]] + Entries(config, keys[1..]) == start + Entries(config, keys)
  {
    if keys == [] {
      assert start + Entries(config, keys) == start;
    } else {
      assert keys == [keys[0]] + keys[1..];
    }
  }

  lemma {:induction false} LoadPrinted(start: Config, config: Config, keys: seq<string>)
    requires Clean(config) && forall k :: k in keys ==> k in config
    ensures Loaded(start, Printed(config, keys)) == start + Entries(config, keys)
    decreases |keys|
  {
    hide Loaded, CleanKey, CleanValue;
    if keys == [] {
      EntriesStep(start, config, keys);
    } else {
      var key, rest := keys[0], Printed(config, keys[1..]);
      LineRoundTrip(start, key, config[key], rest);
      LoadPrinted(start[key := config[key]], config, keys[1..]);
      EntriesStep(start, config, keys);
    }
  }

  /** Whatever the file holds, loading only ever adds clean entries. */
  lemma {:induction false} LoadedIsClean(config: Config, text: string)
    requires Clean(config)
    ensures Clean(Loaded(config, text))
    decreases |text|
  {
    hide Clean;
    if text != [] {
      var (line, rest) := NextLine(text);
      LineIsClean(config, line);
      LoadedIsClean(WithLine(config, line), rest);
    }
  }

  lemma LineIsClean(config: Config, line: string)
    requires Clean(config) && '\n' !in line
    ensures Clean(WithLine(config, line))
  {
    hide Trim, Trimmed, Find;
    var p := Find(line, '=');
    if p < |line| {
      var key, value := line[..p], line[p + 1..];
      TrimMeaning(key);
      TrimMeaning(value);
      TrimKeeps(key, '=');
      TrimKeeps(key, '\n');
      TrimKeeps(value, '\n');
    }
  }

  /** For every order of iteration: saving and loading gives back the same map exactly when all its entries are clean.
      */
  lemma RoundTripIff(config: Config, keys: seq<string>)
    requires Order(keys, config)
    ensures Loaded(map[], Printed(config, keys)) == config <==> Clean(config)
  {
    if Clean(config) {
      LoadPrinted(map[], config, keys);
      assert map[] + Entries(config, keys) == config;
    }
    LoadedIsClean(map[], Printed(config, keys));
  }

  ghost predicate PrintedInSomeOrder(config: Config, file: string) {
    exists keys :: Order(keys, config) && file == Printed(config, keys)
  }

  // ----- The class -----

  class Manager {
    var config: Config

    constructor ()
      ensures config == map[]
    {
      config := map[];
    }

    /** New entries are added to those the manager already holds. */
    method LoadConfig(file: string)
      modifies this
      ensures config == Loaded(old(config), file)
    {
      hide NextLine, WithLine;
      var rest := file;
      while rest != []
        invariant Loaded(config, rest) == Loaded(old(config), file)
        decreases |rest|
      {
        ghost var before := rest;
        NextLineShorter(rest);
        var next := NextLine(rest);
        config := WithLine(config, next.0);
        rest := next.1;
      }
    }

    function GetConfigValue(key: string): (value: string)
      reads this
      ensures value == if key in config then config[key] else ""
    {
      if key in config then config[key] else ""
    }

    method SetConfigValue(key: string, value: string)
      modifies this
      ensures config == old(config)[key := value]
    {
      config := config[key := value];
    }

    /** The entries in some order, one line each. */
    method SaveConfig() returns (file: string)
      ensures PrintedInSomeOrder(config, file)
    {
      file := "";
      ghost var keys: seq<string> := [];
      var rest := config.Keys;
      while rest != {}
        invariant rest <= config.Keys
        invariant forall k :: k in keys <==> k in config && k !in rest
        invariant forall i, j :: 0 <= i < j < |keys| ==> keys[i] != keys[j]
        invariant file == Printed(config, keys)
        decreases |rest|
      {
        var key :| key in rest;
        PrintedSnoc(config, keys, key);
        file := file + (key + "=" + config[key] + "\n");
        keys := keys + [key];
        rest := rest - {key};
      }
    }
  }

  lemma NextLineShorter(text: string)
    requires text != []
    ensures |NextLine(text).1| < |text|
  {
  }

  lemma {:induction false} PrintedSnoc(config: Config, keys: seq<string>, key: string)
    requires key in config && forall k :: k in keys ==> k in config
    ensures Printed(config, keys + [key]) == Printed(config, keys) + (key + "=" + config[key] + "\n")
  {
    if keys != [] {
      assert (keys + [key])[1..] == keys[1..] + [key];
      PrintedSnoc(config, keys[1..], key);
    } else {
      assert Printed(config, ([key])[1..]) == [];
      assert [key] == keys + [key];
    }
  }

  /** What one manager saves, a fresh one loads back, exactly when every entry is clean; then it answers every query
      the same. */
  method SaveThenLoad(from: Manager) returns (loaded: Manager)
    ensures fresh(loaded)
    ensures loaded.config == from.config <==> Clean(from.config)
    ensures Clean(from.config) ==> forall key :: loaded.GetConfigValue(key) == from.GetConfigValue(key)
  {
    var file := from.SaveConfig();
    ghost var keys :| Order(keys, from.config) && file == Printed(from.config, keys);
    loaded := new Manager();
    loaded.LoadConfig(file);
    RoundTripIff(from.config, keys);
  }

  /** A value that is set is the value read after the next start, exactly when the entry is clean. */
  method SetThenRestart(m: Manager, key: string, value: string) returns (restarted: Manager)
    requires Clean(m.config)
    modifies m
    ensures fresh(restarted)
    ensures CleanKey(key) && CleanValue(value) <==> restarted.config == old(m.config)[key := value]
    ensures CleanKey(key) && CleanValue(value) ==> restarted.GetConfigValue(key) == value
  {
    m.SetConfigValue(key, value);
    restarted := SaveThenLoad(m);
    assert Clean(m.config) <==> CleanKey(key) && CleanValue(value) by {
      assert key in m.config && m.config[key] == value;
    }
  }
}
