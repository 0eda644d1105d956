/**
 * The translation lookup and language state of js/i18n.js (class `I18n`).
 *
 * The parsed translations file is a tree of JSON values. `t(key)` splits the
 * key on '.' and walks down from `translations[currentLang]`; a missing
 * member or a falsy value on the way makes it answer the key itself. The
 * fetched file, the `lang` URL parameter and the 'preferredLanguage'
 * localStorage entry are inputs; `applyTranslations` (the DOM) is left out.
 */
module I18n {
  import opened Wrappers

  /** A JSON value. */
  datatype Value =
    | Str(s: string)
    | Num(n: real)
    | Bool(b: bool)
    | Null
    | Obj(fields: map<string, Value>)
    | Arr(items: seq<Value>)

  /** JavaScript truthiness of a JSON value. */
  predicate Truthy(v: Value) {
    match v
    case Str(s) => s != []
    case Num(n) => n != 0.0
    case Bool(b) => b
    case Null => false
    case Obj(_) => true
    case Arr(_) => true
  }

  predicate IsDigit(ch: char) { '0' <= ch <= '9' }

  /** The number written by a string of decimal digits. */
  function DigitsValue(s: string): nat
    requires forall k :: 0 <= k < |s| ==> IsDigit(s[k])
  {
    if s == [] then 0
    else
      assert IsDigit(s[|s| - 1]);
      10 * DigitsValue(s[..|s| - 1]) + (s[|s| - 1] as int - '0' as int)
  }

  /** The index a property name denotes on an array or string: canonical decimal digits. */
  function ArrayIndex(k: string): Option<nat> {
    if k != [] && (forall j :: 0 <= j < |k| ==> IsDigit(k[j])) && (k == "0" || k[0] != '0')
    then Some(DigitsValue(k))
    else None
  }

  /**
   * `v[k]`, or `None` where JavaScript yields undefined: an object's own
   * member, an array element or a one-character string by index, and the
   * `length` of arrays and strings.
   */
  function Member(v: Value, k: string): Option<Value> {
    match v
    case Obj(f) => if k in f then Some(f[k]) else None
    case Arr(items) =>
      if k == "length" then Some(Num(|items| as real))
      else (match ArrayIndex(k)
        case Some(i) => if i < |items| then Some(items[i]) else None
        case None => None)
    case Str(s) =>
      if k == "length" then Some(Num(|s| as real))
      else (match ArrayIndex(k)
        case Some(i) => if i < |s| then Some(Str([s[i]])) else None
        case None => None)
    case _ => None
  }

  // ---- key splitting ---------------------------------------------------------

  /** `key.split('.')`. */
  function Split(key: string): (parts: seq<string>)
    ensures |parts| >= 1
    ensures forall p :: p in parts ==> '.' !in p
  {
    if '.' !in key then [key]
    else
      var i := Dot(key);
      [key[..i]] + Split(key[i + 1..])
  }

  /** The position of the first '.'. */
  function Dot(key: string): (i: nat)
    requires '.' in key
    ensures i < |key| && key[i] == '.' && '.' !in key[..i]
  {
    if key[0] == '.' then 0 else Dot(key[1..]) + 1
  }

  /** The parts joined with '.', the inverse of `Split`. */
  function Join(parts: seq<string>): string
    requires |parts| >= 1
  {
    if |parts| == 1 then parts[0] else parts[0] + "." + Join(parts[1..])
  }

  /** Splitting and joining give back the key. */
  lemma {:induction false} JoinSplit(key: string)
    ensures Join(Split(key)) == key
  {
    if '.' in key {
      var i := Dot(key);
      JoinSplit(key[i + 1..]);
      JoinCons(key[..i], Split(key[i + 1..]));
      CutAtDot(key, i);
    }
  }

  lemma JoinCons(x: string, rest: seq<string>)
    requires |rest| >= 1
    ensures Join([x] + rest) == x + "." + Join(rest)
  {
    assert ([x] + rest)[1..] == rest;
  }

  lemma CutAtDot(key: string, i: nat)
    requires i < |key| && key[i] == '.'
    ensures key == key[..i] + "." + key[i + 1..]
  {
  }

  /** Joining segments without dots and splitting again gives back the segments. */
  lemma {:induction false} SplitJoin(parts: seq<string>)
    requires |parts| >= 1 && forall p :: p in parts ==> '.' !in p
    ensures Split(Join(parts)) == parts
  {
    if |parts| > 1 {
      var key := Join(parts);
      assert key == parts[0] + "." + Join(parts[1..]);
      assert key[|parts[0]|] == '.';
      assert key[..|parts[0]|] == parts[0];
      assert Dot(key) == |parts[0]| by {
        DotIsFirst(key, |parts[0]|);
      }
      assert key[|parts[0]| + 1..] == Join(parts[1..]);
      SplitJoin(parts[1..]);
    }
  }

  lemma DotIsFirst(key: string, i: nat)
    requires i < |key| && key[i] == '.' && '.' !in key[..i]
    ensures Dot(key) == i
  {
  }

  // ---- lookup ------------------------------------------------------------------

  /**
   * The loop of `t` (js/i18n.js:65-72) from `start`: each segment needs a
   * truthy value holding that member; `None` is the fallback.
   */
  function Resolve(start: Option<Value>, keys: seq<string>): Option<Value>
    decreases |keys|
  {
    if keys == [] then start
    else match start
      case None => None
      case Some(v) =>
        if Truthy(v) then Resolve(Member(v, keys[0]), keys[1..]) else None
  }

  /** Walking a path is walking its first part, then the rest. */
  lemma {:induction false} ResolveAppend(start: Option<Value>, a: seq<string>, b: seq<string>)
    ensures Resolve(start, a + b) == Resolve(Resolve(start, a), b)
    decreases |a|
  {
    if a == [] {
      assert a + b == b;
    } else if start.Some? && Truthy(start.value) {
      assert (a + b)[1..] == a[1..] + b;
      ResolveAppend(Member(start.value, a[0]), a[1..], b);
    } else {
      ResolveNone(b);
    }
  }

  lemma {:induction false} ResolveNone(keys: seq<string>)
    ensures Resolve(None, keys) == None
  {
  }

  /**
   * Once the walk reaches a falsy value, or a value without the next
   * member, no continuation of the key resolves.
   */
  lemma MissingStops(start: Option<Value>, prefix: seq<string>, k: string, rest: seq<string>)
    requires var v := Resolve(start, prefix); v.None? || !Truthy(v.value) || Member(v.value, k).None?
    ensures Resolve(start, prefix + [k] + rest) == None
  {
    ResolveAppend(start, prefix, [k] + rest);
    assert prefix + [k] + rest == prefix + ([k] + rest);
    ResolveNone(rest);
  }

  /** `t(key)` against the translations of `lang` (js/i18n.js:61-75). */
  function Translate(translations: map<string, Value>, lang: string, key: string): Value
  {
    var start := if lang in translations then Some(translations[lang]) else None;
    match Resolve(start, Split(key))
    case Some(v) => v
    case None => Str(key)
  }

  /**
   * `vs` is a walk along `keys`: every value on the way is truthy and holds
   * the next one as its member under the next key.
   */
  ghost predicate Chain(vs: seq<Value>, keys: seq<string>) {
    |vs| == |keys| + 1 &&
    forall i :: 0 <= i < |keys| ==> Truthy(vs[i]) && Member(vs[i], keys[i]) == Some(vs[i + 1])
  }

  /** The loop of `t` follows a walk to its end. */
  lemma {:induction false} ResolveChain(vs: seq<Value>, keys: seq<string>)
    requires Chain(vs, keys)
    ensures Resolve(Some(vs[0]), keys) == Some(vs[|keys|])
    decreases |keys|
  {
    if keys != [] {
      assert Member(vs[0], keys[0]) == Some(vs[1]);
      assert Chain(vs[1..], keys[1..]) by {
        forall i | 0 <= i < |keys| - 1
          ensures Truthy(vs[1..][i]) && Member(vs[1..][i], keys[1..][i]) == Some(vs[1..][i + 1])
        {
          assert Member(vs[i + 1], keys[i + 1]) == Some(vs[i + 2]);
        }
      }
      ResolveChain(vs[1..], keys[1..]);
    }
  }

  /**
   * A dotted key whose segments lead, member by member through truthy
   * values, from the translations of the language to `vs[|path|]`
   * translates to that value.
   */
  lemma TranslateNested(translations: map<string, Value>, lang: string, path: seq<string>, vs: seq<Value>)
    requires |path| >= 1 && forall p :: p in path ==> '.' !in p
    requires lang in translations && Chain(vs, path) && vs[0] == translations[lang]
    ensures Translate(translations, lang, Join(path)) == vs[|path|]
  {
    SplitJoin(path);
    ResolveChain(vs, path);
  }

  /** A key whose walk stops early, or a language with no entry, translates to itself. */
  lemma TranslateMissing(translations: map<string, Value>, lang: string, prefix: seq<string>, k: string, rest: seq<string>)
    requires var start := if lang in translations then Some(translations[lang]) else None;
      var v := Resolve(start, prefix); v.None? || !Truthy(v.value) || Member(v.value, k).None?
    requires forall p :: p in prefix + [k] + rest ==> '.' !in p
    ensures Translate(translations, lang, Join(prefix + [k] + rest)) == Str(Join(prefix + [k] + rest))
  {
    var start := if lang in translations then Some(translations[lang]) else None;
    SplitJoin(prefix + [k] + rest);
    MissingStops(start, prefix, k, rest);
  }

  // ---- language state ------------------------------------------------------------

  /** `supportedLanguages`. */
  const SUPPORTED: seq<string> := ["en", "ja", "ko"]

  /** The fallback when the translations cannot be loaded (js/i18n.js:54). */
  function Fallback(): map<string, Value> {
    map["en" := Obj(map[]), "ja" := Obj(map[]), "ko" := Obj(map[])]
  }

  /**
   * The language choice of `init` (js/i18n.js:28-34): the URL language if
   * supported, else the saved one if supported, else English.
   */
  function ChooseLanguage(urlLang: Option<string>, savedLang: Option<string>): (lang: string)
    ensures lang in SUPPORTED
    ensures urlLang.Some? && urlLang.value in SUPPORTED ==> lang == urlLang.value
    ensures !(urlLang.Some? && urlLang.value in SUPPORTED) && savedLang.Some? && savedLang.value in SUPPORTED ==>
      lang == savedLang.value
    ensures lang == "en" || Some(lang) == urlLang || Some(lang) == savedLang
  {
    if urlLang.Some? && urlLang.value != [] && urlLang.value in SUPPORTED then urlLang.value
    else if savedLang.Some? && savedLang.value != [] && savedLang.value in SUPPORTED then savedLang.value
    else "en"
  }

  class Translator {
    var currentLang: string
    var translations: map<string, Value>
    var ready: bool
    /** The localStorage entry 'preferredLanguage'. */
    var preferred: Option<string>

    /** The current language is always a supported one. */
    ghost predicate Valid()
      reads this
    {
      currentLang in SUPPORTED
    }

    /** `new I18n()` (js/i18n.js:7-12), with what localStorage holds. */
    constructor (saved: Option<string>)
      ensures Valid()
      ensures currentLang == "en" && translations == map[] && !ready && preferred == saved
    {
      currentLang := "en";
      translations := map[];
      ready := false;
      preferred := saved;
    }

    /**
     * `init` (js/i18n.js:17-42): once only. `fetched` is the parsed file, or
     * `None` when fetching or parsing fails.
     */
    method Init(fetched: Option<map<string, Value>>, urlLang: Option<string>)
      requires Valid()
      modifies this
      ensures Valid()
      ensures preferred == old(preferred)
      ensures old(ready) ==>
        ready && currentLang == old(currentLang) && translations == old(translations)
      ensures !old(ready) ==>
        ready && translations == fetched.GetOr(Fallback()) &&
        currentLang == ChooseLanguage(urlLang, preferred)
    {
      if ready {
        return;
      }
      translations := fetched.GetOr(Fallback());
      currentLang := ChooseLanguage(urlLang, preferred);
      ready := true;
    }

    /** `setLanguage(lang)` (js/i18n.js:80-91): only a supported language is taken and remembered. */
    method SetLanguage(lang: string)
      requires Valid()
      modifies this
      ensures Valid()
      ensures translations == old(translations) && ready == old(ready)
      ensures lang in SUPPORTED ==> currentLang == lang && preferred == Some(lang)
      ensures lang !in SUPPORTED ==> currentLang == old(currentLang) && preferred == old(preferred)
    {
      if lang !in SUPPORTED {
        return;
      }
      currentLang := lang;
      preferred := Some(lang);
    }

    /** `t(key)`. */
    function T(key: string): Value
      reads this
    {
      Translate(translations, currentLang, key)
    }
  }
}
