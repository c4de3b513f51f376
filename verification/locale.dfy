/** Locale resolution and string templating shared by the main-process and the
    renderer translators: the eight supported languages, the normalising
    matcher `mapToSupportedLanguage`, the "table present, else English" rule of
    `setLanguage`, and the fallback lookup with `{{name}}` substitution of `t`. */
module Locale {
  import opened Wrappers
  import Text

  // ---------------------------------------------------------------------------
  // Languages

  datatype Lang = En | Ja | ZhCN | Es | Fr | De | Ko | Pt

  function Code(l: Lang): string {
    match l
    case En => "en"
    case Ja => "ja"
    case ZhCN => "zh-CN"
    case Es => "es"
    case Fr => "fr"
    case De => "de"
    case Ko => "ko"
    case Pt => "pt"
  }

  /** The languages in the declaration order of both translation tables, which
      is the order `Object.keys` lists them in. */
  const Supported: seq<Lang> := [En, Ja, ZhCN, Es, Fr, De, Ko, Pt]

  /** The position of a language in `Supported`. */
  function Index(l: Lang): (i: nat)
    ensures i < |Supported| && Supported[i] == l
  {
    match l
    case En => 0
    case Ja => 1
    case ZhCN => 2
    case Es => 3
    case Fr => 4
    case De => 5
    case Ko => 6
    case Pt => 7
  }

  /** The language whose code is exactly `s` (`supportedLanguages.includes`). */
  function FromCode(s: string): (r: Option<Lang>)
    ensures r.Some? ==> Code(r.value) == s
    ensures r.None? ==> forall l: Lang :: Code(l) != s
  {
    if s == "en" then Some(En)
    else if s == "ja" then Some(Ja)
    else if s == "zh-CN" then Some(ZhCN)
    else if s == "es" then Some(Es)
    else if s == "fr" then Some(Fr)
    else if s == "de" then Some(De)
    else if s == "ko" then Some(Ko)
    else if s == "pt" then Some(Pt)
    else None
  }

  // ---------------------------------------------------------------------------
  // Normalisation

  /** `locale.toLowerCase().replace('_', '-')`: lower-case every character and
      turn only the first underscore into a hyphen. */
  function Normalize(locale: string): (n: string)
    ensures |n| == |locale|
    ensures forall j :: 0 <= j < |locale| && j != Text.IndexOf(locale, '_') ==> n[j] == Text.LowerChar(locale[j])
    ensures Text.IndexOf(locale, '_') < |locale| ==> n[Text.IndexOf(locale, '_')] == '-'
  {
    LowerKeepsUnderscore(locale);
    Text.ReplaceFirst(Text.Lower(locale), '_', '-')
  }

  /** Lower-casing neither creates nor removes underscores, so the first one
      stays where it was. */
  lemma LowerKeepsUnderscore(s: string)
    ensures Text.IndexOf(Text.Lower(s), '_') == Text.IndexOf(s, '_')
  {
  }

  /** `normalized.split('-')[0]`: the language part of a normalised locale. */
  function LangPart(n: string): (p: string)
    ensures Text.StartsWith(n, p) && '-' !in p
    ensures |p| < |n| ==> n[|p|] == '-'
  {
    Text.BeforeFirst(n, '-')
  }

  /** A text without a hyphen is its own language part. */
  lemma LangPartWhole(n: string)
    requires '-' !in n
    ensures LangPart(n) == n
  {
  }

  /** A normalised locale never starts with an underscore: an underscore in
      front would have been the first one, and that one became a hyphen. */
  lemma NormalizedHead(locale: string)
    requires |locale| > 0
    ensures Normalize(locale)[0] != '_'
  {
    var n := Normalize(locale);
    if Text.IndexOf(locale, '_') != 0 {
      assert n[0] == Text.LowerChar(locale[0]);
    }
  }

  // ---------------------------------------------------------------------------
  // Matching by language part

  /** The position of the first language, in `langs`' order, whose code starts
      with `p` (`filter(...)[0]`); `|langs|` when there is none. */
  function FirstMatch(langs: seq<Lang>, p: string): (i: nat)
    ensures i <= |langs|
    ensures i < |langs| ==> Text.StartsWith(Code(langs[i]), p)
    ensures forall j :: 0 <= j < i ==> !Text.StartsWith(Code(langs[j]), p)
  {
    if langs == [] then 0
    else if Text.StartsWith(Code(langs[0]), p) then 0
    else 1 + FirstMatch(langs[1..], p)
  }

  /** The alias table consulted after the prefix step. */
  const Aliases: map<string, Lang> := map[
    "zh" := ZhCN, "zh-hans" := ZhCN, "zh-cn" := ZhCN, "zh-sg" := ZhCN,
    "pt-br" := Pt, "es-es" := Es, "es-mx" := Es, "fr-fr" := Fr,
    "fr-ca" := Fr, "de-de" := De, "de-at" := De, "ko-kr" := Ko]

  /** The property names every object literal inherits from
      `Object.prototype`; a lookup `object[name]` finds them even when the
      literal does not define them. */
  const ObjectMembers: set<string> := {
    "constructor", "__proto__", "__defineGetter__", "__defineSetter__",
    "__lookupGetter__", "__lookupSetter__", "hasOwnProperty", "isPrototypeOf",
    "propertyIsEnumerable", "toLocaleString", "toString", "valueOf"}

  /** The lower-case ones among them, the only ones a lower-cased locale can
      name: `constructor` (the `Object` function) and `__proto__` (the
      prototype object). Neither is a language code. */
  const InheritedNames: set<string> := {"constructor", "__proto__"}

  /** The resolved value. `NotALanguage` stands for the inherited property an
      object lookup can return in place of a code. */
  datatype Mapped = Known(lang: Lang) | NotALanguage(property: string)

  /** `mapToSupportedLanguage` as intended: the result is always one of the
      eight languages. An exact match of the normalised locale wins, then the
      first language whose code starts with the language part, then the alias
      table (own entries only), then English. */
  function MapToSupported(locale: string): (r: Lang)
    ensures FromCode(Normalize(locale)).Some? ==> Code(r) == Normalize(locale)
  {
    var n := Normalize(locale);
    match FromCode(n)
    case Some(l) => l
    case None =>
      var i := FirstMatch(Supported, LangPart(n));
      if i < |Supported| then Supported[i]
      else if n in Aliases then Aliases[n]
      else if LangPart(n) in Aliases then Aliases[LangPart(n)]
      else En
  }

  /** `mappings[k]` on the object literal: an own entry, an inherited property,
      or `undefined`. */
  function Property(k: string): (r: Option<Mapped>)
    ensures r.Some? && r.value.NotALanguage? ==> r.value.property in InheritedNames
  {
    if k in Aliases then Some(Known(Aliases[k]))
    else if k in InheritedNames then Some(NotALanguage(k))
    else None
  }

  /** `mapToSupportedLanguage` as written: the final
      `mappings[normalized] || mappings[langCode] || 'en'` also sees the
      properties inherited from `Object.prototype`. */
  function MapAsWritten(locale: string): (r: Mapped)
    ensures r.NotALanguage? ==> r.property in InheritedNames
  {
    var n := Normalize(locale);
    match FromCode(n)
    case Some(l) => Known(l)
    case None =>
      var i := FirstMatch(Supported, LangPart(n));
      if i < |Supported| then Known(Supported[i])
      else Property(n).GetOr(Property(LangPart(n)).GetOr(Known(En)))
  }

  // ---------------------------------------------------------------------------
  // Properties of the matcher

  /** Every alias key has a language part some supported code starts with. */
  lemma AliasKeysPrefixed(k: string)
    requires k in Aliases
    ensures FirstMatch(Supported, LangPart(k)) < |Supported|
  {
    var l := Aliases[k];
    assert |k| >= 2 && k[..2] == Code(l)[..2] && (|k| == 2 || k[2] == '-');
    assert Text.IndexOf(k, '-') == 2;
    assert Text.StartsWith(Code(Supported[Index(l)]), LangPart(k));
  }

  /** The alias table can never be consulted: whenever no code starts with the
      language part, neither the locale nor its language part is an alias key. */
  lemma AliasesUnreachable(n: string)
    requires FirstMatch(Supported, LangPart(n)) == |Supported|
    ensures n !in Aliases && LangPart(n) !in Aliases
  {
    if n in Aliases {
      AliasKeysPrefixed(n);
    }
    var p := LangPart(n);
    assert Text.IndexOf(p, '-') == |p|;
    assert LangPart(p) == p;
    if p in Aliases {
      AliasKeysPrefixed(p);
    }
  }

  /** The resolution rule without the alias table: an exact match is kept,
      otherwise the result is the first language in declaration order whose
      code starts with the language part, and English when there is none. */
  lemma {:induction false} MapRule(locale: string)
    ensures var n := Normalize(locale); var p := LangPart(n); var r := MapToSupported(locale);
      && (FromCode(n).None? && Text.StartsWith(Code(r), p) ==>
            forall j :: 0 <= j < Index(r) ==> !Text.StartsWith(Code(Supported[j]), p))
      && (FromCode(n).None? && !Text.StartsWith(Code(r), p) ==>
            r == En && forall l: Lang :: !Text.StartsWith(Code(l), p))
  {
    var n := Normalize(locale);
    var p := LangPart(n);
    if FromCode(n).None? {
      var i := FirstMatch(Supported, p);
      if i == |Supported| {
        AliasesUnreachable(n);
        forall l: Lang ensures !Text.StartsWith(Code(l), p) {
          assert Supported[Index(l)] == l;
        }
      } else {
        assert Index(Supported[i]) == i;
      }
    }
  }

  /** A text of lower-case letters and hyphens is its own normal form. */
  lemma NormalizeKeeps(s: string)
    requires forall i :: 0 <= i < |s| ==> 'a' <= s[i] <= 'z' || s[i] == '-'
    ensures Normalize(s) == s
  {
    assert Text.IndexOf(s, '_') == |s|;
  }

  lemma FromCodeOfCode(l: Lang)
    ensures FromCode(Code(l)) == Some(l)
  {
    match l
    case En =>
    case Ja =>
    case ZhCN =>
    case Es =>
    case Fr =>
    case De =>
    case Ko =>
    case Pt =>
  }

  /** A text longer than every code is none of them. */
  lemma FromCodeLong(s: string)
    requires |s| > 5
    ensures FromCode(s) == None
  {
    if FromCode(s).Some? {
      CodeShort(FromCode(s).value);
    }
  }

  lemma CodeShort(l: Lang)
    ensures 2 <= |Code(l)| <= 5
  {
  }

  lemma NormalizeZh()
    ensures Normalize("zh-CN") == "zh-cn"
  {
    assert Text.IndexOf("zh-CN", '_') == 5;
  }

  lemma LangPartZh()
    ensures LangPart("zh-cn") == "zh"
  {
    assert Text.IndexOf("zh-cn", '-') == 2;
  }

  lemma FirstMatchZh()
    ensures FirstMatch(Supported, "zh") == 2
  {
    assert Text.StartsWith(Code(Supported[2]), "zh");
    assert Code(Supported[0])[..2][0] != 'z' && Code(Supported[1])[..2][0] != 'z';
  }

  /** "zh-CN" lower-cases to "zh-cn", which is no code; its language part
      `zh` selects the third language. */
  lemma MapZh()
    ensures MapToSupported("zh-CN") == ZhCN
  {
    NormalizeZh();
    LangPartZh();
    FirstMatchZh();
    assert FromCode("zh-cn") == None;
  }

  /** Mapping a supported code gives that language back. ("zh-CN" is not an
      exact match after lower-casing; its language part `zh` selects it.) */
  lemma MapIdempotent(l: Lang)
    ensures MapToSupported(Code(l)) == l
  {
    if l == ZhCN {
      MapZh();
    } else {
      NormalizeKeeps(Code(l));
      FromCodeOfCode(l);
    }
  }

  /** With language part `constructor`, the written mapping returns the
      `Object` function instead of a language. */
  lemma AsWrittenConstructor(locale: string)
    requires LangPart(Normalize(locale)) == "constructor"
    ensures MapAsWritten(locale) == NotALanguage("constructor")
  {
    var n := Normalize(locale);
    var p := LangPart(n);
    FromCodeLong(n);
    NoCodeStartsWith(p);
    AliasesUnreachable(n);
    NotProto(locale);
  }

  /** A text whose language part is not `constructor` is not `constructor`. */
  lemma NotConstructor(n: string)
    requires LangPart(n) != "constructor"
    ensures n != "constructor"
  {
    if n == "constructor" {
      LangPartWhole(n);
    }
  }

  /** The other inherited name, `__proto__`, is never looked up: neither a
      normalised locale nor its language part starts with an underscore. */
  lemma NotProto(locale: string)
    ensures Normalize(locale) != "__proto__" && LangPart(Normalize(locale)) != "__proto__"
  {
    var n := Normalize(locale);
    var p := LangPart(n);
    if |locale| > 0 {
      NormalizedHead(locale);
      if |p| > 0 {
        assert p[0] == n[0];
      }
    }
  }

  /** No code starts with a text longer than every code, so such a language
      part always falls through to English. */
  lemma NoCodeStartsWith(p: string)
    requires |p| > 5
    ensures FirstMatch(Supported, p) == |Supported|
  {
    var i := FirstMatch(Supported, p);
    if i < |Supported| {
      CodeShort(Supported[i]);
    }
  }

  /** Otherwise the written mapping agrees with the intended one. */
  lemma AsWrittenAgrees(locale: string)
    requires LangPart(Normalize(locale)) != "constructor"
    ensures MapAsWritten(locale) == Known(MapToSupported(locale))
  {
    var n := Normalize(locale);
    var p := LangPart(n);
    if FromCode(n).Some? {
    } else if FirstMatch(Supported, p) < |Supported| {
    } else {
      AliasesUnreachable(n);
      NotConstructor(n);
      NotProto(locale);
    }
  }

  /** With language part `constructor` the intended mapping gives English. */
  lemma IntendedConstructor(locale: string)
    requires LangPart(Normalize(locale)) == "constructor"
    ensures MapToSupported(locale) == En
  {
    var n := Normalize(locale);
    FromCodeLong(n);
    NoCodeStartsWith("constructor");
    AliasesUnreachable(n);
  }

  /** The locale "constructor" has language part `constructor`, so the
      two lemmas above apply to it. */
  lemma ConstructorLocale(locale: string)
    requires locale == "constructor"
    ensures LangPart(Normalize(locale)) == "constructor"
  {
    NormalizeKeeps(locale);
    LangPartWhole(locale);
  }

  // ---------------------------------------------------------------------------
  // setLanguage

  /** `setLanguage`: the language is kept when a translation table exists for
      it, otherwise English is used. A non-language value finds no table. */
  function Select(m: Mapped): (l: Lang)
    ensures m.Known? ==> l == m.lang
    ensures m.NotALanguage? ==> l == En
  {
    match m
    case Known(x) => x
    case NotALanguage(_) => En
  }

  /** Resolving a locale and selecting it, as both translators do at start-up,
      always lands on the intended language: the written defect is masked. */
  lemma SelectMasksDefect(locale: string)
    ensures Select(MapAsWritten(locale)) == MapToSupported(locale)
  {
    if LangPart(Normalize(locale)) == "constructor" {
      AsWrittenConstructor(locale);
      IntendedConstructor(locale);
    } else {
      AsWrittenAgrees(locale);
    }
  }

  // ---------------------------------------------------------------------------
  // t: lookup with fallback and placeholder substitution

  type Table = map<string, string>

  /** A table yields a string for the key only when the entry is non-empty
      (`||` treats an empty string as missing). */
  predicate Has(t: Table, key: string) {
    key in t && t[key] != ""
  }

  datatype ParamValue = Str(s: string) | Num(n: int)

  /** `String(value)` for a string or an integer. */
  function ValueText(v: ParamValue): (r: string)
    ensures v.Str? ==> r == v.s
    ensures v.Num? ==> |r| > 0
  {
    match v
    case Str(s) => s
    case Num(n) => Text.IntToString(n)
  }

  datatype Param = Param(name: string, value: ParamValue)

  function Placeholder(name: string): (r: string)
    ensures |r| == |name| + 4
  {
    "{{" + name + "}}"
  }

  /** The `reduce` over the parameters: each replaces every occurrence of its
      placeholder in the text produced so far. */
  function Fill(text: string, params: seq<Param>): string
    decreases |params|
  {
    if params == [] then text
    else Fill(Text.ReplaceAll(text, Placeholder(params[0].name), ValueText(params[0].value)), params[1..])
  }

  /** `t`: the current language's string, else the English one, else the key;
      returned verbatim without parameters and filled in with them. The tables
      hold the locale files' own entries. A key that names an inherited object
      member and is not an own entry would find that member in JavaScript
      rather than fall through, so the fallbacks are stated for other keys
      only; none of the declared translation keys is such a name. */
  function Translate(tables: Lang -> Table, current: Lang, key: string, params: Option<seq<Param>>): (r: string)
    ensures params.None? && Has(tables(current), key) ==> r == tables(current)[key]
    ensures params.None? && !Has(tables(current), key) && Has(tables(En), key) && key !in ObjectMembers
            ==> r == tables(En)[key]
    ensures params.None? && !Has(tables(current), key) && !Has(tables(En), key) && key !in ObjectMembers
            ==> r == key
    ensures params.Some? && Has(tables(current), key) ==> r == Fill(tables(current)[key], params.value)
  {
    var translation :=
      if Has(tables(current), key) then tables(current)[key]
      else if Has(tables(En), key) then tables(En)[key]
      else key;
    match params
    case None => translation
    case Some(ps) => Fill(translation, ps)
  }

  /** Parameters whose placeholders do not occur leave the text unchanged. */
  lemma {:induction false} FillAbsent(text: string, params: seq<Param>)
    requires forall i :: 0 <= i < |params| ==> !Text.Contains(text, Placeholder(params[i].name))
    ensures Fill(text, params) == text
    decreases |params|
  {
    if params != [] {
      Text.ReplaceAllAbsent(text, Placeholder(params[0].name), ValueText(params[0].value));
      FillAbsent(text, params[1..]);
    }
  }

  /** A placeholder whose name holds no brace has no border, so occurrences
      cannot overlap. */
  lemma PlaceholderBorderFree(name: string)
    requires '{' !in name && '}' !in name
    ensures Text.BorderFree(Placeholder(name))
  {
    var pat := Placeholder(name);
    var n := |name|;
    assert pat[0] == '{' && pat[1] == '{';
    forall j | 2 <= j < |pat|
      ensures pat[j] != '{'
    {
      if j < n + 2 {
        assert pat[j] == name[j - 2];
      } else {
        assert pat[j] == '}';
      }
    }
    forall m | 0 < m < |pat|
      ensures pat[..m] != pat[|pat| - m..]
    {
      var k := |pat| - m;
      if k >= 2 {
        assert pat[..m][0] == pat[0] != pat[k] == pat[k..][0];
      } else {
        assert pat[..m][1] == pat[1] != pat[2] == pat[k..][1];
      }
    }
  }

  /** One placeholder, surrounded by text free of it, is replaced by the
      value's text and nothing else changes. */
  lemma FillOne(a: string, name: string, b: string, v: ParamValue)
    requires '{' !in name && '}' !in name
    requires !Text.Contains(a, Placeholder(name)) && !Text.Contains(b, Placeholder(name))
    ensures Fill(a + Placeholder(name) + b, [Param(name, v)]) == a + ValueText(v) + b
  {
    PlaceholderBorderFree(name);
    Text.ReplaceAllSingle(a, Placeholder(name), b, ValueText(v));
  }
}
