/**
 * `get_text`: look a message key up in the translation table of the caller's language,
 * falling back to the default language and finally to `"<key>"`, then fill in the keyword
 * arguments with `str.format`. The translation table itself is a parameter.
 */
module Localization {
  import opened Wrappers
  import opened Text

  /** `DEFAULT_LANGUAGE`. */
  const DefaultLanguage: string := "zh"

  /** `SUPPORTED_LANGUAGES`. */
  const SupportedLanguages: seq<string> := ["zh", "en"]

  /** `s.split('-')[0]`: everything before the first dash. */
  function BeforeDash(s: string): (r: string)
    ensures |r| <= |s| && r == s[..|r|]
    ensures '-' !in r
    ensures |r| < |s| ==> s[|r|] == '-'
    ensures '-' !in s ==> r == s
  {
    if s == [] || s[0] == '-' then [] else [s[0]] + BeforeDash(s[1..])
  }

  /** The language `get_text` looks in: `xx-YY` becomes `xx`, and anything unsupported the default. */
  function NormalizeLanguage(code: string): (r: string)
    ensures r in SupportedLanguages
    ensures '-' !in code ==> (r == code <==> code in SupportedLanguages)
    ensures '-' in code && BeforeDash(code) in SupportedLanguages ==> r == BeforeDash(code)
    ensures r != DefaultLanguage ==> r == code || r == BeforeDash(code)
  {
    var processed := if code != "" && '-' in code then BeforeDash(code) else code;
    if processed in SupportedLanguages then processed else DefaultLanguage
  }

  /** The table of translations, by language code and then by message key. */
  type Translations = map<string, map<string, string>>

  /**
   * The template found for `key`: the normalized language's table when it has the key,
   * else the default table's entry; `None` when neither has it.
   */
  function Template(translations: Translations, key: string, lang: string): (t: Option<string>)
    requires DefaultLanguage in translations
    ensures var table := if NormalizeLanguage(lang) in translations then translations[NormalizeLanguage(lang)]
                         else translations[DefaultLanguage];
      && (key in table ==> t == Some(table[key]))
      && (key !in table && key in translations[DefaultLanguage] ==> t == Some(translations[DefaultLanguage][key]))
      && (key !in table && key !in translations[DefaultLanguage] ==> t == None)
  {
    var l := NormalizeLanguage(lang);
    var table := if l in translations then translations[l] else translations[DefaultLanguage];
    if key in table then Some(table[key])
    else if key in translations[DefaultLanguage] then Some(translations[DefaultLanguage][key])
    else None
  }

  /**
   * What `str.format(**kwargs)` does with a template: the text, a `KeyError` for a
   * field missing from the arguments, or a `ValueError` (or `IndexError`) for a template
   * that is not well-formed, such as a lone brace or an empty field.
   */
  datatype FormatOutcome = Formatted(text: string) | MissingKey | Malformed

  /** The index of the first `}` of `s`, or `|s|`. */
  function CloseBrace(s: string): (j: nat)
    ensures j <= |s| && '}' !in s[..j]
    ensures j < |s| ==> s[j] == '}'
  {
    if s == [] || s[0] == '}' then 0
    else
      var j := CloseBrace(s[1..]);
      assert s[..j + 1] == [s[0]] + s[1..][..j];
      j + 1
  }

  /**
   * `str.format` with keyword arguments only, left to right: `{{` and `}}` stand for a
   * single brace and `{name}` for the argument `name`.
   */
  function Format(t: string, kwargs: map<string, string>): FormatOutcome
    decreases |t|
  {
    if t == [] then Formatted([])
    else if t[0] == '{' && |t| > 1 && t[1] == '{' then Prepend("{", Format(t[2..], kwargs))
    else if t[0] == '}' && |t| > 1 && t[1] == '}' then Prepend("}", Format(t[2..], kwargs))
    else if t[0] == '}' then Malformed
    else if t[0] == '{' then
      var j := CloseBrace(t[1..]);
      var name := t[1..][..j];
      if j == |t[1..]| || name == [] || '{' in name then Malformed
      else if name !in kwargs then MissingKey
      else Prepend(kwargs[name], Format(t[j + 2..], kwargs))
    else Prepend([t[0]], Format(t[1..], kwargs))
  }

  function Prepend(s: string, o: FormatOutcome): FormatOutcome {
    if o.Formatted? then Formatted(s + o.text) else o
  }

  /** A template without braces formats to itself, whatever the arguments. */
  lemma {:induction false} FormatWithoutBraces(t: string, kwargs: map<string, string>)
    requires '{' !in t && '}' !in t
    ensures Format(t, kwargs) == Formatted(t)
    decreases |t|
  {
    if t != [] {
      assert t[0] in t;
      assert forall c :: c in t[1..] ==> c in t;
      FormatWithoutBraces(t[1..], kwargs);
      assert [t[0]] + t[1..] == t;
    }
  }

  /** A single field is replaced by its argument. */
  lemma FormatOneField(name: string, kwargs: map<string, string>)
    requires name != [] && '{' !in name && '}' !in name && name in kwargs
    requires '{' !in kwargs[name] && '}' !in kwargs[name]
    ensures Format("{" + name + "}", kwargs) == Formatted(kwargs[name])
  {
    var t := "{" + name + "}";
    assert t[1..] == name + "}";
    assert CloseBrace(name + "}") == |name| by {
      CloseBraceAfter(name);
    }
    assert t[1..][..|name|] == name;
    assert t[|name| + 2..] == [];
  }

  lemma {:induction false} CloseBraceAfter(s: string)
    requires '}' !in s
    ensures CloseBrace(s + "}") == |s|
    decreases |s|
  {
    if s != [] {
      assert s[0] in s;
      assert forall c :: c in s[1..] ==> c in s;
      assert (s + "}")[1..] == s[1..] + "}";
      CloseBraceAfter(s[1..]);
    }
  }

  /**
   * `get_text`. `None` is the `ValueError` that escapes `str.format` on a template that is
   * not well-formed; a `KeyError` is caught and gives the template unformatted.
   */
  function GetText(translations: Translations, key: string, lang: string, kwargs: map<string, string>)
    : (r: Option<string>)
    requires DefaultLanguage in translations
    ensures Template(translations, key, lang).None? ==> r == Some("<" + key + ">")
    ensures Template(translations, key, lang).Some? && (Contains(key, "ai_sys") || kwargs == map[]) ==>
      r == Template(translations, key, lang)
    ensures Template(translations, key, lang).Some? && !Contains(key, "ai_sys") && kwargs != map[] ==>
      match Format(Template(translations, key, lang).value, kwargs)
      case Formatted(s) => r == Some(s)
      case MissingKey => r == Template(translations, key, lang)
      case Malformed => r == None
  {
    match Template(translations, key, lang)
    case None => Some("<" + key + ">")
    case Some(text) =>
      if Contains(key, "ai_sys") then Some(text)
      else if kwargs != map[] then
        match Format(text, kwargs)
        case Formatted(s) => Some(s)
        case MissingKey => Some(text)
        case Malformed => None
      else Some(text)
  }

  /** A regional code such as `en-US` reads the `en` table. */
  lemma RegionalCodeUsesBaseLanguage(translations: Translations, key: string)
    requires DefaultLanguage in translations && "en" in translations && key in translations["en"]
    ensures Template(translations, key, "en-US") == Some(translations["en"][key])
  {
    assert BeforeDash("en-US") == "en" by {
      assert BeforeDash("-US") == [];
      assert BeforeDash("n-US") == "n" + BeforeDash("-US");
    }
    assert '-' in "en-US" by { assert "en-US"[2] == '-'; }
  }

  /** An unsupported language reads the default table. */
  lemma UnsupportedLanguageUsesDefault(translations: Translations, key: string, lang: string)
    requires DefaultLanguage in translations && key in translations[DefaultLanguage]
    requires '-' !in lang && lang !in SupportedLanguages
    ensures Template(translations, key, lang) == Some(translations[DefaultLanguage][key])
  {
  }
}
