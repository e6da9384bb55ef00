/**
 The item-name table (fetcher/fetch-translations.ts, and its copy in
 stores/spt-data.store.ts `getTranslations`): the game's locale file maps keys such
 as `"<tpl> ShortName"` or `"<tpl> Name"` to text, and the program keeps the short
 names, keyed by template id.
 */
module Translations {
  import opened Wrappers
  import opened Strings
  import opened OrderedMap

  type Translations = OMap<string, string>

  const ShortName: string := "ShortName"

  /**
   `const [tpl, type] = key.split(' '); if (type === 'ShortName') ...`: the first
   space-separated token when the second is exactly `ShortName`.
   */
  function ShortNameKey(key: string): (r: Option<string>)
    ensures r.Some? ==> ' ' !in r.value
  {
    var parts := Split(key, ' ');
    if |parts| >= 2 && parts[1] == ShortName then Some(parts[0]) else None
  }

  /** The entries the loop keeps, as `(tpl, value)` pairs, in order. */
  function ShortNamePairs(entries: seq<(string, string)>): (kept: seq<(string, string)>)
    ensures |kept| <= |entries|
  {
    if |entries| == 0 then []
    else
      var init := ShortNamePairs(entries[..|entries| - 1]);
      var last := entries[|entries| - 1];
      match ShortNameKey(last.0)
      case Some(tpl) => init + [(tpl, last.1)]
      case None => init
  }

  /** The whole loop over `Object.entries(rawTranslations)`: later keys overwrite earlier ones. */
  function ParseTranslations(entries: seq<(string, string)>): (t: Translations)
    ensures DistinctKeys(t)
  {
    LastWinsDistinct(ShortNamePairs(entries));
    LastWins(ShortNamePairs(entries))
  }

  /** `translations.get(tpl) ?? tpl`: the translated name, or the id itself. */
  function Translate(t: Translations, tpl: string): (name: string)
    ensures Get(t, tpl).Some? ==> name == Get(t, tpl).value
    ensures Get(t, tpl).None? ==> name == tpl
  {
    Get(t, tpl).GetOr(tpl)
  }

  /** Text starting with `ShortName` and then a space or nothing has `ShortName` as its first token. */
  lemma ShortNameFirstToken(rest: string)
    requires rest == [] || rest[0] == ' '
    ensures Split(ShortName + rest, ' ')[0] == ShortName
  {
    assert ' ' !in ShortName;
    if rest == [] {
      assert ShortName + rest == ShortName;
      SplitFree(ShortName, ' ');
    } else {
      assert ShortName + rest == ShortName + [' '] + rest[1..];
      SplitPrefix(ShortName, ' ', rest[1..]);
    }
  }

  /** A key `"<tpl> ShortName"`, optionally followed by more space-separated text, is kept under `tpl`. */
  lemma ShortNameKeyAccepts(tpl: string, rest: string)
    requires ' ' !in tpl
    requires rest == [] || rest[0] == ' '
    ensures ShortNameKey(tpl + " ShortName" + rest) == Some(tpl)
  {
    var tail := ShortName + rest;
    var key := tpl + " ShortName" + rest;
    assert key == tpl + [' '] + tail by {
      assert " ShortName" == [' '] + ShortName;
    }
    SplitPrefix(tpl, ' ', tail);
    ShortNameFirstToken(rest);
    var parts := Split(key, ' ');
    assert parts == [tpl] + Split(tail, ' ');
    assert parts[0] == tpl && parts[1] == ShortName;
  }

  /** Conversely, every kept key has that form: nothing else is kept. */
  lemma ShortNameKeyForm(key: string, tpl: string)
    requires ShortNameKey(key) == Some(tpl)
    ensures exists rest :: (rest == [] || rest[0] == ' ') && key == tpl + " ShortName" + rest
  {
    var parts := Split(key, ' ');
    JoinSplit(key, ' ');
    assert Join(parts, ' ') == parts[0] + [' '] + Join(parts[1..], ' ');
    var tail := parts[1..];
    assert tail[0] == ShortName;
    var rest := if |tail| == 1 then [] else [' '] + Join(tail[1..], ' ');
    assert Join(tail, ' ') == ShortName + rest;
    assert key == tpl + " ShortName" + rest;
  }

  /** A key without a space is a single token and is dropped. */
  lemma KeyWithoutSpaceDropped(key: string)
    requires ' ' !in key
    ensures ShortNameKey(key) == None
  {
    SplitFree(key, ' ');
  }

  /** The table maps `tpl` to the value of the last kept entry for it. */
  lemma ParseTranslationsGet(entries: seq<(string, string)>, tpl: string)
    ensures Get(ParseTranslations(entries), tpl) == LastFor(ShortNamePairs(entries), tpl)
  {
    LastWinsGet(ShortNamePairs(entries), tpl);
  }

  /** An entry is in the kept list exactly when its key is a short-name key. */
  lemma {:induction false} ShortNamePairsMember(entries: seq<(string, string)>, tpl: string, value: string)
    ensures (tpl, value) in ShortNamePairs(entries) <==>
      exists i :: 0 <= i < |entries| && entries[i].1 == value && ShortNameKey(entries[i].0) == Some(tpl)
  {
    if |entries| > 0 {
      var init := entries[..|entries| - 1];
      ShortNamePairsMember(init, tpl, value);
      if (exists i :: 0 <= i < |entries| && entries[i].1 == value && ShortNameKey(entries[i].0) == Some(tpl)) {
        var i :| 0 <= i < |entries| && entries[i].1 == value && ShortNameKey(entries[i].0) == Some(tpl);
        if i < |init| {
          assert init[i] == entries[i];
        }
      }
      if (exists i :: 0 <= i < |init| && init[i].1 == value && ShortNameKey(init[i].0) == Some(tpl)) {
        var i :| 0 <= i < |init| && init[i].1 == value && ShortNameKey(init[i].0) == Some(tpl);
        assert entries[i] == init[i];
      }
    }
  }

  /** A later short-name entry for the same template id replaces an earlier one. */
  lemma LaterEntryOverwrites(entries: seq<(string, string)>, key: string, value: string, tpl: string)
    requires ShortNameKey(key) == Some(tpl)
    ensures Get(ParseTranslations(entries + [(key, value)]), tpl) == Some(value)
  {
    var all := entries + [(key, value)];
    assert all[..|all| - 1] == entries;
    ParseTranslationsGet(all, tpl);
  }
}
