/**
 * dist/langtool.py: makes every translation file in a language folder carry
 * exactly the keys of the en_US template.  Missing keys are reported
 * (check), asked for (translate) or filled with a marker (update); keys the
 * template does not have are removed; the file is written back.
 *
 * A JSON object is modelled by its "translations" dictionary, with
 * Python's insertion order; the file system is a map from the path given on
 * the command line to what it names; the answers typed at the translate
 * prompt are a function of the key and its template value.
 */
module LangTool {

  import opened Wrappers

  const DEFAULT_LANG: string := "en_US"
  const TEMPLATE_FILE: string := "en_US.json"
  const MISSING: string := "***** MISSING TRANSLATION *****"

  datatype Command = Check | Translate | Update

  /** The command word of argv[1]; anything else is rejected. */
  function ParseCommand(word: string): (c: Option<Command>)
    ensures c.Some? <==> word == "check" || word == "translate" || word == "update"
    ensures c == Some(Check) <==> word == "check"
    ensures c == Some(Update) <==> word == "update"
  {
    if word == "check" then Some(Check)
    else if word == "translate" then Some(Translate)
    else if word == "update" then Some(Update)
    else None
  }

  // ----------------------------------------------------------- dictionaries

  /** A Python dict of strings: keys in insertion order, and their values. */
  datatype Dict = Dict(keys: seq<string>, values: map<string, string>)

  predicate Distinct(keys: seq<string>) {
    forall i, j :: 0 <= i < j < |keys| ==> keys[i] != keys[j]
  }

  /** Every key once, and exactly the keys that have values. */
  predicate WellFormed(d: Dict) {
    && Distinct(d.keys)
    && (forall i :: 0 <= i < |d.keys| ==> d.keys[i] in d.values)
    && (forall k :: k in d.values ==> k in d.keys)
  }

  /** `d[key] = value`: a new key goes to the end of the order. */
  function Assign(d: Dict, key: string, value: string): (r: Dict)
    requires WellFormed(d)
    ensures WellFormed(r)
    ensures r.values == d.values[key := value]
  {
    if key in d.values then Dict(d.keys, d.values[key := value])
    else Dict(d.keys + [key], d.values[key := value])
  }

  /** The order without one key. */
  function Without(keys: seq<string>, key: string): (r: seq<string>)
    ensures forall k :: k in r <==> k in keys && k != key
    ensures Distinct(keys) ==> Distinct(r)
    ensures key !in keys ==> r == keys
    decreases |keys|
  {
    if keys == [] then []
    else if keys[0] == key then Without(keys[1..], key)
    else
      var rest := Without(keys[1..], key);
      assert Distinct(keys) ==> keys[0] !in keys[1..] && Distinct(keys[1..]);
      assert Distinct(keys) ==> keys[0] !in rest;
      assert key !in keys ==> rest == keys[1..];
      [keys[0]] + rest
  }

  /** The keys after the first are distinct and do not repeat the first. */
  lemma DistinctTail(keys: seq<string>)
    requires Distinct(keys) && |keys| > 0
    ensures Distinct(keys[1..]) && keys[0] !in keys[1..]
  {
    var tail := keys[1..];
    forall a, b | 0 <= a < b < |tail| ensures tail[a] != tail[b] {
      assert tail[a] == keys[a + 1] && tail[b] == keys[b + 1];
    }
    forall j | 0 <= j < |tail| ensures tail[j] != keys[0] {
      assert tail[j] == keys[j + 1];
    }
  }

  /** Cutting out the first key of a distinct order leaves its tail. */
  lemma WithoutFirst(keys: seq<string>)
    requires |keys| > 0 && keys[0] !in keys[1..]
    ensures Without(keys, keys[0]) == keys[..0] + keys[1..]
  {
    assert keys[..0] + keys[1..] == keys[1..];
  }

  /** The step of WithoutCutsOut past a first key that stays. */
  lemma WithoutLater(keys: seq<string>, key: string, i: nat)
    requires 0 < i < |keys| && keys[0] != key
    requires Without(keys[1..], key) == keys[1..][..i - 1] + keys[1..][i..]
    ensures Without(keys, key) == keys[..i] + keys[i + 1..]
  {
    assert keys[..i] + keys[i + 1..] == [keys[0]] + (keys[1..][..i - 1] + keys[1..][i..]);
  }

  /** Popping a key keeps the order of the others: the key is cut out where it stood. */
  lemma {:induction false} WithoutCutsOut(keys: seq<string>, key: string, i: nat)
    requires Distinct(keys) && i < |keys| && keys[i] == key
    ensures Without(keys, key) == keys[..i] + keys[i + 1..]
    decreases i
  {
    DistinctTail(keys);
    if i == 0 {
      WithoutFirst(keys);
    } else {
      var tail := keys[1..];
      assert tail[i - 1] == key;
      WithoutCutsOut(tail, key, i - 1);
      WithoutLater(keys, key, i);
    }
  }

  /** `d.pop(key)`, which the program only calls on a present key. */
  function Pop(d: Dict, key: string): (r: Dict)
    requires WellFormed(d) && key in d.values
    ensures WellFormed(r)
    ensures r.values == d.values - {key}
  {
    var keys := Without(d.keys, key);
    assert forall i :: 0 <= i < |keys| ==> keys[i] in keys;
    Dict(keys, d.values - {key})
  }

  // -------------------------------------------------------------- one file

  /** What processing one file's template keys ends in. */
  datatype Filled = Filled(dict: Dict) | MissingKey(key: string)

  /**
   * handle_missing_key: check stops the program (exit status 2), translate
   * stores the answer to the prompt, update stores the marker.
   */
  function HandleMissing(command: Command, d: Dict, key: string, value: string,
                         reply: (string, string) -> string): (r: Filled)
    requires WellFormed(d)
    ensures r.MissingKey? <==> command == Check
    ensures r.MissingKey? ==> r.key == key
    ensures command == Translate ==> r == Filled(Assign(d, key, reply(key, value)))
    ensures command == Update ==> r == Filled(Assign(d, key, MISSING))
  {
    match command
    case Check => MissingKey(key)
    case Translate => Filled(Assign(d, key, reply(key, value)))
    case Update => Filled(Assign(d, key, MISSING))
  }

  /** The first loop: every template key, in template order. */
  function Fill(command: Command, keys: seq<string>, template: map<string, string>, d: Dict,
                reply: (string, string) -> string): (r: Filled)
    requires WellFormed(d)
    requires forall k :: k in keys ==> k in template
    ensures r.Filled? ==> WellFormed(r.dict)
    ensures r.MissingKey? ==> command == Check
    decreases |keys|
  {
    if keys == [] then Filled(d)
    else if keys[0] in d.values then Fill(command, keys[1..], template, d, reply)
    else
      match HandleMissing(command, d, keys[0], template[keys[0]], reply)
      case MissingKey(k) => MissingKey(k)
      case Filled(next) => Fill(command, keys[1..], template, next, reply)
  }

  /** The second loop: the keys the template does not have, in order. */
  function Unused(keys: seq<string>, template: map<string, string>): (r: seq<string>)
    ensures forall k :: k in r <==> k in keys && k !in template
    ensures Distinct(keys) ==> Distinct(r)
    decreases |keys|
  {
    if keys == [] then []
    else
      var last := keys[|keys| - 1];
      var rest := Unused(keys[..|keys| - 1], template);
      assert Distinct(keys) ==> last !in keys[..|keys| - 1] && Distinct(keys[..|keys| - 1]);
      if last !in template then rest + [last] else rest
  }

  /** One more key seen by the second loop. */
  lemma UnusedSnoc(keys: seq<string>, key: string, template: map<string, string>)
    ensures Unused(keys + [key], template) == Unused(keys, template) + (if key !in template then [key] else [])
  {
    assert (keys + [key])[..|keys|] == keys;
  }

  /** The third loop: pop each of the given keys, in order. */
  function RemoveAll(d: Dict, keys: seq<string>): (r: Dict)
    requires WellFormed(d) && Distinct(keys)
    requires forall k :: k in keys ==> k in d.values
    ensures WellFormed(r)
    ensures forall k :: k in r.values <==> k in d.values && k !in keys
    ensures forall k :: k in r.values ==> r.values[k] == d.values[k]
    decreases |keys|
  {
    if keys == [] then d
    else
      var last := keys[|keys| - 1];
      assert last !in keys[..|keys| - 1] && Distinct(keys[..|keys| - 1]);
      Pop(RemoveAll(d, keys[..|keys| - 1]), last)
  }

  /** One translation file brought in line with the template. */
  function Sync(command: Command, template: Dict, d: Dict, reply: (string, string) -> string): (r: Filled)
    requires WellFormed(template) && WellFormed(d)
    ensures r.Filled? ==> WellFormed(r.dict)
    ensures r.MissingKey? ==> command == Check
  {
    match Fill(command, template.keys, template.values, d, reply)
    case MissingKey(k) => MissingKey(k)
    case Filled(f) => Filled(RemoveAll(f, Unused(f.keys, template.values)))
  }

  /** The dictionary has exactly the template's keys. */
  predicate SameKeys(d: Dict, template: Dict) {
    d.values.Keys == template.values.Keys
  }

  /**
   * Filling adds exactly the template keys that were missing, leaves the
   * values already there alone, and gives each added key the marker
   * (update) or the answer to its prompt (translate).
   */
  lemma {:induction false} FillAddsMissingKeys(command: Command, keys: seq<string>, template: map<string, string>,
                                                d: Dict, reply: (string, string) -> string)
    requires WellFormed(d)
    requires forall k :: k in keys ==> k in template
    ensures var r := Fill(command, keys, template, d, reply);
      r.Filled? ==>
        && (forall k :: k in r.dict.values <==> k in d.values || k in keys)
        && (forall k :: k in d.values ==> r.dict.values[k] == d.values[k])
        && (forall k :: k in keys && k !in d.values ==>
              r.dict.values[k] == if command == Update then MISSING else reply(k, template[k]))
    decreases |keys|
  {
    if keys != [] {
      if keys[0] in d.values {
        FillAddsMissingKeys(command, keys[1..], template, d, reply);
      } else {
        match HandleMissing(command, d, keys[0], template[keys[0]], reply)
        case MissingKey(_) =>
        case Filled(next) =>
          FillAddsMissingKeys(command, keys[1..], template, next, reply);
          FillMissingStep(command, keys, template, d, next, reply);
      }
    }
  }

  /** The step of FillAddsMissingKeys over a key the dictionary lacks. */
  lemma FillMissingStep(command: Command, keys: seq<string>, template: map<string, string>,
                        d: Dict, next: Dict, reply: (string, string) -> string)
    requires WellFormed(d) && keys != [] && keys[0] !in d.values
    requires forall k :: k in keys ==> k in template
    requires HandleMissing(command, d, keys[0], template[keys[0]], reply) == Filled(next)
    requires var r := Fill(command, keys[1..], template, next, reply);
      r.Filled? ==>
        && (forall k :: k in r.dict.values <==> k in next.values || k in keys[1..])
        && (forall k :: k in next.values ==> r.dict.values[k] == next.values[k])
        && (forall k :: k in keys[1..] && k !in next.values ==>
              r.dict.values[k] == if command == Update then MISSING else reply(k, template[k]))
    ensures var r := Fill(command, keys, template, d, reply);
      r.Filled? ==>
        && (forall k :: k in r.dict.values <==> k in d.values || k in keys)
        && (forall k :: k in d.values ==> r.dict.values[k] == d.values[k])
        && (forall k :: k in keys && k !in d.values ==>
              r.dict.values[k] == if command == Update then MISSING else reply(k, template[k]))
  {
    var r := Fill(command, keys, template, d, reply);
    assert r == Fill(command, keys[1..], template, next, reply);
    var v := if command == Update then MISSING else reply(keys[0], template[keys[0]]);
    assert next.values == d.values[keys[0] := v];
    if r.Filled? {
      forall k ensures k in r.dict.values <==> k in d.values || k in keys {
        assert k in keys <==> k == keys[0] || k in keys[1..];
      }
      forall k | k in d.values ensures r.dict.values[k] == d.values[k] {
        assert k in next.values && next.values[k] == d.values[k];
      }
      forall k | k in keys && k !in d.values
        ensures r.dict.values[k] == if command == Update then MISSING else reply(k, template[k])
      {
        if k == keys[0] {
          assert k in next.values && next.values[k] == v;
        } else {
          assert k in keys[1..] && k !in next.values;
        }
      }
    }
  }

  /**
   * Check mode stops exactly when some template key is missing, and then at
   * the first missing key in template order; otherwise nothing is added.
   * Translate and update never stop.
   */
  lemma {:induction false} FillStopsAtFirstMissing(command: Command, keys: seq<string>, template: map<string, string>,
                                                    d: Dict, reply: (string, string) -> string)
    requires WellFormed(d)
    requires forall k :: k in keys ==> k in template
    ensures var r := Fill(command, keys, template, d, reply);
      && (r.MissingKey? <==> command == Check && exists k :: k in keys && k !in d.values)
      && (r.MissingKey? ==> exists i :: 0 <= i < |keys| && keys[i] == r.key && r.key !in d.values
                                       && forall j :: 0 <= j < i ==> keys[j] in d.values)
      && (r.Filled? && command == Check ==> r.dict == d)
    decreases |keys|
  {
    if keys != [] {
      var r := Fill(command, keys, template, d, reply);
      if keys[0] in d.values {
        FillStopsAtFirstMissing(command, keys[1..], template, d, reply);
        if r.MissingKey? {
          var i :| 0 <= i < |keys[1..]| && keys[1..][i] == r.key && r.key !in d.values
                   && forall j :: 0 <= j < i ==> keys[1..][j] in d.values;
          assert keys[i + 1] == r.key;
          assert forall j :: 0 <= j < i + 1 ==> keys[j] in d.values by {
            forall j | 0 <= j < i + 1 ensures keys[j] in d.values {
              if j > 0 { assert keys[j] == keys[1..][j - 1]; }
            }
          }
        }
        if command == Check && (exists k :: k in keys && k !in d.values) {
          var k :| k in keys && k !in d.values;
          assert k in keys[1..];
        }
      } else if command == Check {
        assert keys[0] in keys;
      } else {
        var next := HandleMissing(command, d, keys[0], template[keys[0]], reply).dict;
        FillStopsAtFirstMissing(command, keys[1..], template, next, reply);
      }
    }
  }

  /**
   * The second and third loops: once a file holds every template key,
   * removing its unused keys leaves exactly the template's keys, with
   * their values untouched.
   */
  lemma PruneKeepsTemplateKeys(f: Dict, template: Dict)
    requires WellFormed(f) && WellFormed(template)
    requires forall k :: k in template.values ==> k in f.values
    ensures var r := RemoveAll(f, Unused(f.keys, template.values));
      && SameKeys(r, template)
      && (forall k :: k in r.values ==> r.values[k] == f.values[k])
  {
    var u := Unused(f.keys, template.values);
    var r := RemoveAll(f, u);
    forall k ensures k in r.values <==> k in template.values {
      assert k in u <==> k in f.keys && k !in template.values;
      assert k in r.values <==> k in f.values && k !in u;
      assert k in f.values <==> k in f.keys;
    }
    assert r.values.Keys == template.values.Keys;
  }

  /**
   * After a file is processed its key set is the template's, and every key
   * it shares with the template keeps its value; in update mode every key
   * it lacked holds the marker.
   */
  lemma SyncMatchesTemplate(command: Command, template: Dict, d: Dict, reply: (string, string) -> string)
    requires WellFormed(template) && WellFormed(d)
    ensures var r := Sync(command, template, d, reply);
      r.Filled? ==>
        && SameKeys(r.dict, template)
        && (forall k :: k in d.values && k in template.values ==> r.dict.values[k] == d.values[k])
        && (command == Update ==> forall k :: k in template.values && k !in d.values ==> r.dict.values[k] == MISSING)
        && (command == Translate ==>
              forall k :: k in template.values && k !in d.values ==> r.dict.values[k] == reply(k, template.values[k]))
  {
    FillAddsMissingKeys(command, template.keys, template.values, d, reply);
    match Fill(command, template.keys, template.values, d, reply)
    case MissingKey(_) =>
    case Filled(f) =>
      PruneKeepsTemplateKeys(f, template);
  }

  /**
   * In check mode a file fails exactly when it lacks a template key;
   * a file that passes only loses its unused keys.
   */
  lemma SyncCheck(template: Dict, d: Dict, reply: (string, string) -> string)
    requires WellFormed(template) && WellFormed(d)
    ensures var r := Sync(Check, template, d, reply);
      && (r.MissingKey? <==> exists k :: k in template.values && k !in d.values)
      && (r.MissingKey? ==> r.key in template.values && r.key !in d.values)
      && (r.Filled? ==> forall k :: k in r.dict.values <==> k in d.values && k in template.values)
  {
    FillStopsAtFirstMissing(Check, template.keys, template.values, d, reply);
  }

  /** The per-file part of main: its three loops in turn. */
  method SyncFile(command: Command, template: Dict, d: Dict, reply: (string, string) -> string)
    returns (r: Filled)
    requires WellFormed(template) && WellFormed(d)
    ensures r == Sync(command, template, d, reply)
  {
    r := FillMissingKeys(command, template, d, reply);
    if r.Filled? {
      var keysToRemove := CollectUnusedKeys(r.dict, template);
      var translations := RemoveKeys(r.dict, keysToRemove);
      r := Filled(translations);
    }
  }

  /** The loop over the template's keys, calling handle_missing_key for each missing one. */
  method FillMissingKeys(command: Command, template: Dict, d: Dict, reply: (string, string) -> string)
    returns (r: Filled)
    requires WellFormed(template) && WellFormed(d)
    ensures r == Fill(command, template.keys, template.values, d, reply)
  {
    var translations := d;
    for i := 0 to |template.keys|
      invariant WellFormed(translations)
      invariant Fill(command, template.keys, template.values, d, reply)
             == Fill(command, template.keys[i..], template.values, translations, reply)
    {
      var key := template.keys[i];
      ghost var rest := template.keys[i..];
      assert rest[0] == key && rest[1..] == template.keys[i + 1..];
      assert forall k :: k in rest ==> k in template.values;
      if key !in translations.values {
        var handled := HandleMissing(command, translations, key, template.values[key], reply);
        if handled.MissingKey? {
          return MissingKey(key);
        }
        assert Fill(command, rest, template.values, translations, reply)
            == Fill(command, rest[1..], template.values, handled.dict, reply);
        translations := handled.dict;
      } else {
        assert Fill(command, rest, template.values, translations, reply)
            == Fill(command, rest[1..], template.values, translations, reply);
      }
    }
    assert template.keys[|template.keys|..] == [];
    r := Filled(translations);
  }

  /** The loop building keys_to_remove. */
  method CollectUnusedKeys(translations: Dict, template: Dict) returns (keysToRemove: seq<string>)
    ensures keysToRemove == Unused(translations.keys, template.values)
  {
    keysToRemove := [];
    for i := 0 to |translations.keys|
      invariant keysToRemove == Unused(translations.keys[..i], template.values)
    {
      var key := translations.keys[i];
      assert translations.keys[..i + 1] == translations.keys[..i] + [key];
      UnusedSnoc(translations.keys[..i], key, template.values);
      if key !in template.values {
        keysToRemove := keysToRemove + [key];
      }
    }
    assert translations.keys[..|translations.keys|] == translations.keys;
  }

  /** The loop popping every key of keys_to_remove. */
  method RemoveKeys(d: Dict, keysToRemove: seq<string>) returns (translations: Dict)
    requires WellFormed(d) && Distinct(keysToRemove)
    requires forall k :: k in keysToRemove ==> k in d.values
    ensures translations == RemoveAll(d, keysToRemove)
  {
    translations := d;
    for i := 0 to |keysToRemove|
      invariant translations == RemoveAll(d, keysToRemove[..i])
    {
      assert keysToRemove[..i + 1][..i] == keysToRemove[..i];
      assert keysToRemove[i] !in keysToRemove[..i];
      translations := Pop(translations, keysToRemove[i]);
    }
    assert keysToRemove[..|keysToRemove|] == keysToRemove;
  }

  // ------------------------------------------------------------------ main

  /** What the folder argument names. */
  datatype Node =
    | RegularFile
      /** A folder: the names glob("*.json") yields, in its order, and the files' dictionaries. */
    | Directory(entries: seq<string>, files: map<string, Dict>)

  predicate NodeWellFormed(n: Node) {
    n.Directory? ==>
      && (forall i :: 0 <= i < |n.entries| ==> n.entries[i] in n.files)
      && (forall name :: name in n.files ==> WellFormed(n.files[name]))
  }

  predicate StartsWith(s: string, prefix: string) {
    |prefix| <= |s| && s[..|prefix|] == prefix
  }

  /** Path.stem of a "*.json" name. */
  function Stem(name: string): (stem: string)
    ensures |stem| <= |name|
    ensures |name| > 5 && name[|name| - 5..] == ".json" ==> stem + ".json" == name
    ensures !(|name| > 5 && name[|name| - 5..] == ".json") ==> stem == name
  {
    if |name| > 5 && name[|name| - 5..] == ".json" then name[..|name| - 5] else name
  }

  /** The file filter: the requested language if any, and never the template's own files. */
  predicate Selected(name: string, lang: string) {
    (lang == "" || Stem(name) == lang) && !StartsWith(name, DEFAULT_LANG)
  }

  /** The exit status of a run and the files it wrote back. */
  datatype Run = Run(exitCode: int, written: map<string, Dict>)

  /** The loop over the folder's files. */
  function Process(command: Command, lang: string, template: Dict, names: seq<string>,
                   files: map<string, Dict>, written: map<string, Dict>,
                   reply: (string, string) -> string): (r: Run)
    requires WellFormed(template)
    requires forall i :: 0 <= i < |names| ==> names[i] in files
    requires forall name :: name in files ==> WellFormed(files[name])
    ensures r.exitCode == 0 || r.exitCode == 2
    ensures r.exitCode == 2 ==> command == Check
    decreases |names|
  {
    if names == [] then Run(0, written)
    else if !Selected(names[0], lang) then Process(command, lang, template, names[1..], files, written, reply)
    else
      match Sync(command, template, files[names[0]], reply)
      case MissingKey(_) => Run(2, written)
      case Filled(r) =>
        Process(command, lang, template, names[1..], files[names[0] := r], written[names[0] := r], reply)
  }

  /** main(): argument checks, the template, then every selected file. */
  function RunLangTool(argv: seq<string>, fileSystem: map<string, Node>, reply: (string, string) -> string): (r: Run)
    requires forall path :: path in fileSystem ==> NodeWellFormed(fileSystem[path])
  {
    if |argv| < 3 then Run(1, map[])
    else
      match ParseCommand(argv[1])
      case None => Run(1, map[])
      case Some(command) =>
        if argv[2] !in fileSystem then Run(1, map[])
        else
          var folder := fileSystem[argv[2]];
          var lang := if |argv| > 3 then argv[3] else "";
          if folder.RegularFile? || TEMPLATE_FILE !in folder.files then Run(1, map[])
          else
            assert NodeWellFormed(folder);
            Process(command, lang, folder.files[TEMPLATE_FILE], folder.entries, folder.files, map[], reply)
  }

  /** Too few arguments, an unknown command or a bad folder: status 1, nothing written. */
  lemma RejectsBadInvocation(argv: seq<string>, fileSystem: map<string, Node>, reply: (string, string) -> string)
    requires forall path :: path in fileSystem ==> NodeWellFormed(fileSystem[path])
    requires || |argv| < 3
             || ParseCommand(argv[1]).None?
             || argv[2] !in fileSystem
             || fileSystem[argv[2]].RegularFile?
             || TEMPLATE_FILE !in fileSystem[argv[2]].files
    ensures RunLangTool(argv, fileSystem, reply) == Run(1, map[])
  {
  }

  /** Only selected files of the folder are ever written. */
  lemma {:induction false} ProcessWritesSelected(command: Command, lang: string, template: Dict, names: seq<string>,
                                                  files: map<string, Dict>, written: map<string, Dict>,
                                                  reply: (string, string) -> string)
    requires WellFormed(template)
    requires forall i :: 0 <= i < |names| ==> names[i] in files
    requires forall name :: name in files ==> WellFormed(files[name])
    ensures forall name :: name in Process(command, lang, template, names, files, written, reply).written ==>
      name in written || (name in names && Selected(name, lang))
    decreases |names|
  {
    if names != [] {
      if !Selected(names[0], lang) {
        ProcessWritesSelected(command, lang, template, names[1..], files, written, reply);
      } else {
        match Sync(command, template, files[names[0]], reply)
        case MissingKey(_) =>
        case Filled(r) =>
          ProcessWritesSelected(command, lang, template, names[1..], files[names[0] := r], written[names[0] := r], reply);
      }
    }
  }

  /** Every file written has exactly the template's keys. */
  lemma {:induction false} ProcessWritesTemplateKeys(command: Command, lang: string, template: Dict, names: seq<string>,
                                                      files: map<string, Dict>, written: map<string, Dict>,
                                                      reply: (string, string) -> string)
    requires WellFormed(template)
    requires forall i :: 0 <= i < |names| ==> names[i] in files
    requires forall name :: name in files ==> WellFormed(files[name])
    requires forall name :: name in written ==> SameKeys(written[name], template)
    ensures forall name :: name in Process(command, lang, template, names, files, written, reply).written ==>
      SameKeys(Process(command, lang, template, names, files, written, reply).written[name], template)
    decreases |names|
  {
    if names != [] {
      if !Selected(names[0], lang) {
        ProcessWritesTemplateKeys(command, lang, template, names[1..], files, written, reply);
      } else {
        match Sync(command, template, files[names[0]], reply)
        case MissingKey(_) =>
        case Filled(r) =>
          SyncMatchesTemplate(command, template, files[names[0]], reply);
          ProcessWritesTemplateKeys(command, lang, template, names[1..], files[names[0] := r], written[names[0] := r], reply);
      }
    }
  }

  /** Translate and update process every selected file and exit with status 0. */
  lemma {:induction false} ProcessCompletes(command: Command, lang: string, template: Dict, names: seq<string>,
                                             files: map<string, Dict>, written: map<string, Dict>,
                                             reply: (string, string) -> string)
    requires command != Check
    requires WellFormed(template)
    requires forall i :: 0 <= i < |names| ==> names[i] in files
    requires forall name :: name in files ==> WellFormed(files[name])
    ensures var r := Process(command, lang, template, names, files, written, reply);
      && r.exitCode == 0
      && forall i :: 0 <= i < |names| && Selected(names[i], lang) ==> names[i] in r.written
    decreases |names|
  {
    if names != [] {
      var r := Process(command, lang, template, names, files, written, reply);
      if !Selected(names[0], lang) {
        ProcessCompletes(command, lang, template, names[1..], files, written, reply);
      } else {
        FillStopsAtFirstMissing(command, template.keys, template.values, files[names[0]], reply);
        var s := Sync(command, template, files[names[0]], reply);
        ProcessCompletes(command, lang, template, names[1..], files[names[0] := s.dict], written[names[0] := s.dict], reply);
        WrittenStays(command, lang, template, names[1..], files[names[0] := s.dict], written[names[0] := s.dict], reply, names[0]);
      }
      forall i | 0 <= i < |names| && Selected(names[i], lang)
        ensures names[i] in r.written
      {
        if i > 0 {
          assert names[i] == names[1..][i - 1];
        }
      }
    }
  }

  /** A file once written stays among the written ones. */
  lemma {:induction false} WrittenStays(command: Command, lang: string, template: Dict, names: seq<string>,
                                         files: map<string, Dict>, written: map<string, Dict>,
                                         reply: (string, string) -> string, name: string)
    requires WellFormed(template)
    requires forall i :: 0 <= i < |names| ==> names[i] in files
    requires forall n :: n in files ==> WellFormed(files[n])
    requires name in written
    ensures name in Process(command, lang, template, names, files, written, reply).written
    decreases |names|
  {
    if names != [] {
      if !Selected(names[0], lang) {
        WrittenStays(command, lang, template, names[1..], files, written, reply, name);
      } else {
        match Sync(command, template, files[names[0]], reply)
        case MissingKey(_) =>
        case Filled(r) =>
          WrittenStays(command, lang, template, names[1..], files[names[0] := r], written[names[0] := r], reply, name);
      }
    }
  }

  /** The dictionary has every key of the template. */
  predicate Complete(d: Dict, template: Dict) {
    template.values.Keys <= d.values.Keys
  }

  /**
   * Check mode exits with status 2 exactly when some selected file lacks a
   * template key (given the folder lists each name once).
   */
  lemma {:induction false} ProcessCheckFails(lang: string, template: Dict, names: seq<string>,
                                              files: map<string, Dict>, written: map<string, Dict>,
                                              reply: (string, string) -> string)
    requires WellFormed(template) && Distinct(names)
    requires forall i :: 0 <= i < |names| ==> names[i] in files
    requires forall name :: name in files ==> WellFormed(files[name])
    ensures Process(Check, lang, template, names, files, written, reply).exitCode == 2 <==>
      exists i :: 0 <= i < |names| && Selected(names[i], lang) && !Complete(files[names[i]], template)
    decreases |names|
  {
    if names != [] {
      var rest := names[1..];
      assert Distinct(rest);
      if !Selected(names[0], lang) {
        ProcessCheckFails(lang, template, rest, files, written, reply);
        CheckSkipStep(lang, template, names, files, written, reply);
      } else {
        var s := Sync(Check, template, files[names[0]], reply);
        if s.Filled? {
          ProcessCheckFails(lang, template, rest, files[names[0] := s.dict], written[names[0] := s.dict], reply);
        }
        CheckFileStep(lang, template, names, files, written, reply);
      }
    }
  }

  /** The step of ProcessCheckFails past a file the filter skips. */
  lemma CheckSkipStep(lang: string, template: Dict, names: seq<string>,
                      files: map<string, Dict>, written: map<string, Dict>,
                      reply: (string, string) -> string)
    requires WellFormed(template) && names != [] && !Selected(names[0], lang)
    requires forall i :: 0 <= i < |names| ==> names[i] in files
    requires forall name :: name in files ==> WellFormed(files[name])
    requires Process(Check, lang, template, names[1..], files, written, reply).exitCode == 2 <==>
      exists i :: 0 <= i < |names| - 1 && Selected(names[1..][i], lang) && !Complete(files[names[1..][i]], template)
    ensures Process(Check, lang, template, names, files, written, reply).exitCode == 2 <==>
      exists i :: 0 <= i < |names| && Selected(names[i], lang) && !Complete(files[names[i]], template)
  {
    IncompleteSplit(lang, template, names, files, files);
  }

  /** The step of ProcessCheckFails over a selected file. */
  lemma CheckFileStep(lang: string, template: Dict, names: seq<string>,
                      files: map<string, Dict>, written: map<string, Dict>,
                      reply: (string, string) -> string)
    requires WellFormed(template) && names != [] && Distinct(names) && Selected(names[0], lang)
    requires forall i :: 0 <= i < |names| ==> names[i] in files
    requires forall name :: name in files ==> WellFormed(files[name])
    requires var s := Sync(Check, template, files[names[0]], reply);
      s.Filled? ==>
        (Process(Check, lang, template, names[1..], files[names[0] := s.dict], written[names[0] := s.dict], reply).exitCode == 2 <==>
         exists i :: 0 <= i < |names| - 1 && Selected(names[1..][i], lang)
                     && !Complete(files[names[0] := s.dict][names[1..][i]], template))
    ensures Process(Check, lang, template, names, files, written, reply).exitCode == 2 <==>
      exists i :: 0 <= i < |names| && Selected(names[i], lang) && !Complete(files[names[i]], template)
  {
    var d := files[names[0]];
    SyncCheck(template, d, reply);
    match Sync(Check, template, d, reply)
    case MissingKey(_) =>
      assert !Complete(d, template);
    case Filled(r) =>
      assert Complete(d, template);
      var next := files[names[0] := r];
      assert forall j :: 1 <= j < |names| ==> names[j] != names[0] && next[names[j]] == files[names[j]];
      IncompleteSplit(lang, template, names, files, next);
  }

  /**
   * Some selected file among `names` is incomplete exactly when the first
   * one is, or one of the rest is, read in `next`, which agrees with
   * `files` on the rest.
   */
  lemma IncompleteSplit(lang: string, template: Dict, names: seq<string>, files: map<string, Dict>, next: map<string, Dict>)
    requires names != []
    requires forall i :: 0 <= i < |names| ==> names[i] in files
    requires forall j :: 1 <= j < |names| ==> names[j] in next && next[names[j]] == files[names[j]]
    ensures (exists i :: 0 <= i < |names| && Selected(names[i], lang) && !Complete(files[names[i]], template)) <==>
      || (Selected(names[0], lang) && !Complete(files[names[0]], template))
      || (exists i :: 0 <= i < |names| - 1 && Selected(names[1..][i], lang) && !Complete(next[names[1..][i]], template))
  {
    if exists i :: 0 <= i < |names| && Selected(names[i], lang) && !Complete(files[names[i]], template) {
      var i :| 0 <= i < |names| && Selected(names[i], lang) && !Complete(files[names[i]], template);
      if i > 0 {
        assert names[1..][i - 1] == names[i];
      }
    }
    if exists i :: 0 <= i < |names| - 1 && Selected(names[1..][i], lang) && !Complete(next[names[1..][i]], template) {
      var i :| 0 <= i < |names| - 1 && Selected(names[1..][i], lang) && !Complete(next[names[1..][i]], template);
      assert names[1..][i] == names[i + 1];
    }
  }

  /** main, as the script runs it. */
  method RunTool(argv: seq<string>, fileSystem: map<string, Node>, reply: (string, string) -> string)
    returns (exitCode: int, written: map<string, Dict>)
    requires forall path :: path in fileSystem ==> NodeWellFormed(fileSystem[path])
    ensures Run(exitCode, written) == RunLangTool(argv, fileSystem, reply)
  {
    written := map[];
    if |argv| < 3 {
      return 1, written;
    }
    var command := ParseCommand(argv[1]);
    if command.None? {
      return 1, written;
    }
    if argv[2] !in fileSystem || fileSystem[argv[2]].RegularFile? {
      return 1, written;
    }
    var folder := fileSystem[argv[2]];
    var lang := if |argv| > 3 then argv[3] else "";
    if TEMPLATE_FILE !in folder.files {
      return 1, written;
    }
    var template := folder.files[TEMPLATE_FILE];
    var files := folder.files;
    for i := 0 to |folder.entries|
      invariant forall name :: name in files ==> WellFormed(files[name])
      invariant forall j :: 0 <= j < |folder.entries| ==> folder.entries[j] in files
      invariant Process(command.value, lang, template, folder.entries, folder.files, map[], reply)
             == Process(command.value, lang, template, folder.entries[i..], files, written, reply)
    {
      assert folder.entries[i..][1..] == folder.entries[i + 1..];
      var name := folder.entries[i];
      if Selected(name, lang) {
        var result := SyncFile(command.value, template, files[name], reply);
        if result.MissingKey? {
          return 2, written;
        }
        files := files[name := result.dict];
        written := written[name := result.dict];
      }
    }
    assert folder.entries[|folder.entries|..] == [];
    exitCode := 0;
  }
}
