/**
 * `frontend/src/i18n.js`: the translation lookup with its fallbacks, the pass
 * that rewrites every tagged element, and the Thai/English toggle with the
 * language it persists. The translation table itself is a parameter; the
 * shipped one has an `en` and a `th` part.
 */
module I18n {
  import opened Wrappers

  /** `_i18n`: language, then key, then text. */
  type Table = map<string, map<string, string>>

  /** `window._lang in _i18n ? window._lang : 'en'` */
  function LookupLang(table: Table, lang: string): (l: string)
    ensures l in table <== "en" in table
    ensures l == lang <==> lang in table || lang == "en"
  {
    if lang in table then lang else "en"
  }

  /** `t(key)`: the current language's text, else the English text, else the key itself. */
  function T(table: Table, lang: string, key: string): (r: string)
    requires "en" in table
    ensures var l := LookupLang(table, lang);
            && (key in table[l] ==> r == table[l][key])
            && (key !in table[l] && key in table["en"] ==> r == table["en"][key])
            && (key !in table[l] && key !in table["en"] ==> r == key)
  {
    var l := LookupLang(table, lang);
    if key in table[l] then table[l][key]
    else if key in table["en"] then table["en"][key]
    else key
  }

  /** A language the table does not have reads exactly like English. */
  lemma UnknownLanguageIsEnglish(table: Table, lang: string, key: string)
    requires "en" in table && lang !in table
    ensures T(table, lang, key) == T(table, "en", key)
  {
  }

  /** The lookup never makes up a text: it is an entry of the table or the key itself. */
  lemma LookupFromTableOrKey(table: Table, lang: string, key: string)
    requires "en" in table
    ensures T(table, lang, key) == key
            || exists l | l in table :: key in table[l] && T(table, lang, key) == table[l][key]
  {
    var l := LookupLang(table, lang);
    if key in table[l] {
      assert key in table[l] && T(table, lang, key) == table[l][key];
    } else if key in table["en"] {
      assert key in table["en"] && T(table, lang, key) == table["en"][key];
    }
  }

  /** The texts after `applyI18n`: an element changes only when its key translates to something other than the key. */
  function Applied(table: Table, lang: string, keys: seq<string>, texts: seq<string>): (r: seq<string>)
    requires "en" in table && |keys| == |texts|
    ensures |r| == |texts|
    ensures forall i | 0 <= i < |texts| :: r[i] == if T(table, lang, keys[i]) != keys[i] then T(table, lang, keys[i]) else texts[i]
  {
    if keys == [] then []
    else [if T(table, lang, keys[0]) != keys[0] then T(table, lang, keys[0]) else texts[0]]
         + Applied(table, lang, keys[1..], texts[1..])
  }

  /** Applying the same language twice changes nothing more. */
  lemma AppliedTwice(table: Table, lang: string, keys: seq<string>, texts: seq<string>)
    requires "en" in table && |keys| == |texts|
    ensures Applied(table, lang, keys, Applied(table, lang, keys, texts)) == Applied(table, lang, keys, texts)
  {
  }

  /** After a pass, an element's text depends only on its key, unless the key has no translation. */
  lemma AppliedForgetsOldText(table: Table, lang: string, keys: seq<string>, a: seq<string>, b: seq<string>, i: nat)
    requires "en" in table && |keys| == |a| == |b| && i < |keys| && T(table, lang, keys[i]) != keys[i]
    ensures Applied(table, lang, keys, a)[i] == Applied(table, lang, keys, b)[i]
  {
  }

  /** `applyI18n` over the tagged elements' texts, in document order. */
  method ApplyI18n(table: Table, lang: string, keys: seq<string>, texts: array<string>)
    requires "en" in table && texts.Length == |keys|
    modifies texts
    ensures texts[..] == Applied(table, lang, keys, old(texts[..]))
  {
    ghost var before := texts[..];
    var i := 0;
    while i < texts.Length
      invariant 0 <= i <= texts.Length
      invariant forall k | 0 <= k < i :: texts[k] == Applied(table, lang, keys, before)[k]
      invariant forall k | i <= k < texts.Length :: texts[k] == before[k]
    {
      var val := T(table, lang, keys[i]);
      if val != keys[i] {
        texts[i] := val;
      }
      i := i + 1;
    }
  }

  /** `window._lang === 'th' ? 'en' : 'th'` */
  function Toggled(lang: string): (r: string)
    ensures r == "en" <==> lang == "th"
    ensures r == "th" <==> lang != "th"
  {
    if lang == "th" then "en" else "th"
  }

  /** Toggling twice from Thai or English comes back; from anything else it ends in English. */
  lemma ToggleTwice(lang: string)
    ensures lang in {"th", "en"} ==> Toggled(Toggled(lang)) == lang
    ensures lang !in {"th", "en"} ==> Toggled(Toggled(lang)) == "en"
  {
  }

  /** `window._lang || localStorage.getItem('lang') || 'th'`: the first non-empty choice. */
  function InitialLang(preset: Option<string>, stored: Option<string>): (r: string)
    ensures r != ""
    ensures preset.Some? && preset.value != "" ==> r == preset.value
    ensures (preset.None? || preset.value == "") && stored.Some? && stored.value != "" ==> r == stored.value
    ensures r == "th" <== (preset.None? || preset.value == "") && (stored.None? || stored.value == "")
  {
    if preset.Some? && preset.value != "" then preset.value
    else if stored.Some? && stored.value != "" then stored.value
    else "th"
  }

  /** The page's language: `window._lang` and the `lang` item of local storage. */
  class LangState {
    var lang: string
    var stored: Option<string>

    constructor (preset: Option<string>, stored: Option<string>)
      ensures lang == InitialLang(preset, stored) && this.stored == stored
    {
      lang := InitialLang(preset, stored);
      this.stored := stored;
    }

    /** `toggleLang`: switch, persist, relabel the button with the other language, and re-apply. */
    method ToggleLang(table: Table, keys: seq<string>, texts: array<string>) returns (buttonLabel: string)
      requires "en" in table && texts.Length == |keys|
      modifies this, texts
      ensures lang == Toggled(old(lang)) && stored == Some(lang)
      ensures buttonLabel == if lang == "th" then "EN" else "TH"
      ensures texts[..] == Applied(table, lang, keys, old(texts[..]))
    {
      lang := Toggled(lang);
      stored := Some(lang);
      buttonLabel := if lang == "th" then "EN" else "TH";
      ApplyI18n(table, lang, keys, texts);
    }
  }

  /** A toggled choice survives a reload: a page without a preset starts in the language last toggled to. */
  lemma ToggleSurvivesReload(lang: string)
    ensures InitialLang(None, Some(Toggled(lang))) == Toggled(lang)
  {
  }
}
