/**
 * The Translation Lookup of the front end, `useI18n`: a dot-separated key
 * is looked up in the message tree of the current locale, and `{name}`
 * placeholders in the message are filled in from the parameters.
 */
module I18n {
  import opened Wrappers
  import opened Text

  /** A value of the message tree: a string leaf, an object, or any other value. */
  datatype Msg = Str(text: string) | Obj(fields: map<string, Msg>) | Other

  // ---------------------------------------------------------------------
  // path.split('.')
  // ---------------------------------------------------------------------

  /** The first position of `c` in `s`. */
  function FirstIndex(s: string, c: char): (k: nat)
    requires c in s
    ensures k < |s| && s[k] == c && c !in s[..k]
  {
    if s[0] == c then 0
    else
      assert c in s[1..] by { var j :| 0 <= j < |s| && s[j] == c; assert s[1..][j - 1] == c; }
      var k := 1 + FirstIndex(s[1..], c);
      assert s[..k] == [s[0]] + s[1..][..k - 1];
      k
  }

  /** String.prototype.split with a one-character separator. */
  function Split(s: string, sep: char): (parts: seq<string>)
    ensures |parts| >= 1
    ensures forall i :: 0 <= i < |parts| ==> sep !in parts[i]
    decreases |s|
  {
    if sep !in s then [s]
    else
      var k := FirstIndex(s, sep);
      [s[..k]] + Split(s[k + 1..], sep)
  }

  /** Array.prototype.join: the parts with the separator between them. */
  function Join(parts: seq<string>, sep: char): string
    requires |parts| >= 1
  {
    if |parts| == 1 then parts[0] else parts[0] + [sep] + Join(parts[1..], sep)
  }

  lemma JoinCons(first: string, rest: seq<string>, sep: char)
    requires |rest| >= 1
    ensures Join([first] + rest, sep) == first + [sep] + Join(rest, sep)
  {
    assert ([first] + rest)[1..] == rest;
  }

  /** Splitting and joining again gives back the path. */
  lemma {:induction false} JoinSplit(s: string, sep: char)
    ensures Join(Split(s, sep), sep) == s
    decreases |s|
  {
    if sep in s {
      var k := FirstIndex(s, sep);
      var tail := s[k + 1..];
      JoinSplit(tail, sep);
      JoinCons(s[..k], Split(tail, sep), sep);
      assert s == s[..k] + [sep] + tail;
    }
  }

  /** A first key without a dot splits off as the first part. */
  lemma SplitFirst(key: string, rest: string, sep: char)
    requires sep !in key
    ensures Split(key + [sep] + rest, sep) == [key] + Split(rest, sep)
  {
    var s := key + [sep] + rest;
    assert s[|key|] == sep;
    var k := FirstIndex(s, sep);
    assert s[..|key|] == key;
    assert k == |key|;
    assert s[k + 1..] == rest;
  }

  // ---------------------------------------------------------------------
  // getNestedValue
  // ---------------------------------------------------------------------

  /** An array index as JavaScript writes it: "0" or digits without a leading zero. */
  predicate IsIndexKey(key: string) {
    key != [] && AllDigits(key) && (|key| == 1 || key[0] != '0')
  }

  /**
   * `current[key]`, None for undefined. An object yields its own property;
   * a string yields the one-character string at an index below its length,
   * and a number for `length`; nothing else has a property here.
   */
  function Index(m: Msg, key: string): (r: Option<Msg>)
    ensures m.Obj? ==> (r.Some? <==> key in m.fields) && (r.Some? ==> r.value == m.fields[key])
    ensures m.Str? && IsIndexKey(key) && DigitsValue(key) < |m.text| ==> r == Some(Str([m.text[DigitsValue(key)]]))
    ensures m.Other? ==> r.None?
  {
    match m
    case Obj(fields) => if key in fields then Some(fields[key]) else None
    case Str(text) =>
      if key == "length" then Some(Other)
      else if IsIndexKey(key) && DigitsValue(key) < |text| then Some(Str([text[DigitsValue(key)]]))
      else None
    case Other => None
  }

  /** Following `keys` from `current`: undefined as soon as a step yields nothing. */
  function Walk(current: Option<Msg>, keys: seq<string>): (r: Option<Msg>)
    ensures current.None? ==> r.None?
    decreases |keys|
  {
    if keys == [] then current
    else if current.None? then None
    else Walk(Index(current.value, keys[0]), keys[1..])
  }

  /** getNestedValue: the string at the end of the path, if the path leads to one. */
  function NestedValue(obj: Msg, path: string): (r: Option<string>)
    // nothing is found under a value that is neither a string nor an object
    ensures obj.Other? ==> r.None?
    // a string leaf has no string property but its character indices
    ensures obj.Str? && '.' !in path && !IsIndexKey(path) ==> r.None?
  {
    var keys := Split(path, '.');
    var node := Walk(Some(obj), keys);
    assert '.' !in path ==> && keys == [path] && keys[1..] == []
                            && node == Walk(Index(obj, keys[0]), keys[1..]) && node == Index(obj, path);
    if node.Some? && node.value.Str? then Some(node.value.text) else None
  }

  /** A key without a dot: the string the object maps it to, else nothing. */
  lemma NestedSingleKey(fields: map<string, Msg>, key: string)
    requires '.' !in key
    ensures NestedValue(Obj(fields), key) == if key in fields && fields[key].Str? then Some(fields[key].text) else None
  {
    assert Split(key, '.') == [key];
    assert [key][1..] == [];
    assert Walk(Some(Obj(fields)), [key]) == Walk(Index(Obj(fields), key), []);
  }

  /** `a.rest` is `rest` looked up under `a`; a missing `a` gives nothing. */
  lemma NestedDot(fields: map<string, Msg>, key: string, rest: string)
    requires '.' !in key
    ensures NestedValue(Obj(fields), key + "." + rest)
            == if key in fields then NestedValue(fields[key], rest) else None
  {
    SplitFirst(key, rest, '.');
    var keys := [key] + Split(rest, '.');
    assert keys[1..] == Split(rest, '.');
  }

  /** Indexing into a string leaf is not "missing": `"0"` picks its first character. */
  lemma StringLeafIndex(text: string)
    requires text != []
    ensures NestedValue(Str(text), "0") == Some([text[0]])
  {
    assert Split("0", '.') == ["0"];
    assert ["0"][1..] == [];
    assert DigitsValue("0") == 0 by { assert "0"[..0] == []; }
    assert IsIndexKey("0");
  }

  /** The loop of getNestedValue, which reassigns `current` key by key. */
  method GetNestedValue(obj: Msg, path: string) returns (r: Option<string>)
    ensures r == NestedValue(obj, path)
  {
    var keys := Split(path, '.');
    var current := Some(obj);
    var i := 0;
    while i < |keys|
      invariant 0 <= i <= |keys|
      invariant Walk(current, keys[i..]) == Walk(Some(obj), keys)
    {
      if current.None? {
        return None;
      }
      assert keys[i..][1..] == keys[i + 1..];
      current := Index(current.value, keys[i]);
      i := i + 1;
    }
    assert keys[i..] == [];
    r := if current.Some? && current.value.Str? then Some(current.value.text) else None;
  }

  // ---------------------------------------------------------------------
  // interpolate
  // ---------------------------------------------------------------------

  /** A parameter value: `string | number` (integral numbers only). */
  datatype Param = StringParam(s: string) | NumberParam(n: int)

  /** String(value). */
  function ParamText(p: Param): string {
    match p
    case StringParam(s) => s
    case NumberParam(n) => if n < 0 then "-" + NatToString(-n) else NatToString(n)
  }

  /** The longest prefix of `\w` characters. */
  function WordPrefix(s: string): (w: string)
    ensures |w| <= |s| && w == s[..|w|]
    ensures forall i :: 0 <= i < |w| ==> IsWordChar(w[i])
    ensures |w| < |s| ==> !IsWordChar(s[|w|])
  {
    if s != [] && IsWordChar(s[0]) then
      var w := [s[0]] + WordPrefix(s[1..]);
      w
    else []
  }

  /** `\{(\w+)\}` matched at the start of `s`: the captured name. */
  function PlaceholderAt(s: string): (key: Option<string>)
    ensures key.Some? ==> key.value != [] && |key.value| + 2 <= |s|
                          && s[..|key.value| + 2] == "{" + key.value + "}"
    ensures key.Some? ==> forall i :: 0 <= i < |key.value| ==> IsWordChar(key.value[i])
  {
    if s == [] || s[0] != '{' then None
    else
      var w := WordPrefix(s[1..]);
      if w != [] && |w| + 1 < |s| && s[|w| + 1] == '}' then
        assert s[..|w| + 2] == "{" + w + "}";
        Some(w)
      else None
  }

  /** What replaces `{key}`: String(value) for a present key, `{key}` itself otherwise. */
  function Replacement(key: string, params: map<string, Param>): string {
    if key in params then ParamText(params[key]) else "{" + key + "}"
  }

  /** interpolate: one left-to-right pass; replaced text is not scanned again. */
  function Interpolate(template: string, params: map<string, Param>): (r: string)
    // a template without an opening brace has no placeholder and comes back unchanged
    ensures '{' !in template ==> r == template
    decreases |template|
  {
    if template == [] then []
    else match PlaceholderAt(template)
      case Some(key) => Replacement(key, params) + Interpolate(template[|key| + 2..], params)
      case None =>
        assert '{' !in template ==> '{' !in template[1..];
        [template[0]] + Interpolate(template[1..], params)
  }

  /** With no parameter known, every placeholder stays as written: the template comes back unchanged. */
  lemma {:induction false} InterpolateUnknownKeys(template: string, params: map<string, Param>)
    requires forall i :: 0 <= i < |template| ==> PlaceholderAt(template[i..]).None? || PlaceholderAt(template[i..]).value !in params
    ensures Interpolate(template, params) == template
    decreases |template|
  {
    if template != [] {
      match PlaceholderAt(template)
      case Some(key) =>
        assert template[0..] == template;
        var rest := template[|key| + 2..];
        forall i | 0 <= i < |rest|
          ensures PlaceholderAt(rest[i..]).None? || PlaceholderAt(rest[i..]).value !in params
        {
          assert rest[i..] == template[i + |key| + 2..];
        }
        InterpolateUnknownKeys(rest, params);
        assert template == template[..|key| + 2] + rest;
      case None =>
        var rest := template[1..];
        forall i | 0 <= i < |rest|
          ensures PlaceholderAt(rest[i..]).None? || PlaceholderAt(rest[i..]).value !in params
        {
          assert rest[i..] == template[i + 1..];
        }
        InterpolateUnknownKeys(rest, params);
        assert template == [template[0]] + rest;
    }
  }

  /** Empty parameters change nothing. */
  lemma InterpolateNoParams(template: string)
    ensures Interpolate(template, map[]) == template
  {
    InterpolateUnknownKeys(template, map[]);
  }

  /** The word characters up to a non-word character. */
  lemma {:induction false} WordPrefixOf(key: string, tail: string)
    requires forall i :: 0 <= i < |key| ==> IsWordChar(key[i])
    requires tail != [] && !IsWordChar(tail[0])
    ensures WordPrefix(key + tail) == key
  {
    if key != [] {
      assert (key + tail)[1..] == key[1..] + tail;
      WordPrefixOf(key[1..], tail);
    } else {
      assert key + tail == tail;
    }
  }

  /** `{name}` for a word `name` is a placeholder. */
  lemma PlaceholderOf(key: string, rest: string)
    requires key != [] && forall i :: 0 <= i < |key| ==> IsWordChar(key[i])
    ensures PlaceholderAt("{" + key + "}" + rest) == Some(key)
  {
    var t := "{" + key + "}" + rest;
    assert t[1..] == key + ("}" + rest);
    WordPrefixOf(key, "}" + rest);
    assert t[|key| + 1] == '}';
  }

  /** When no placeholder is found, `s` does not start with `{name}` for any word `name`. */
  lemma NoPlaceholderAt(s: string, key: string)
    requires PlaceholderAt(s).None?
    requires key != [] && forall i :: 0 <= i < |key| ==> IsWordChar(key[i])
    ensures !(|key| + 2 <= |s| && s[..|key| + 2] == "{" + key + "}")
  {
    if |key| + 2 <= |s| && s[..|key| + 2] == "{" + key + "}" {
      assert s == "{" + key + "}" + s[|key| + 2..];
      PlaceholderOf(key, s[|key| + 2..]);
    }
  }

  /** A placeholder is replaced by its value, and the text after it is interpolated on its own. */
  lemma InterpolatePlaceholder(key: string, rest: string, params: map<string, Param>)
    requires key != [] && forall i :: 0 <= i < |key| ==> IsWordChar(key[i])
    ensures Interpolate("{" + key + "}" + rest, params) == Replacement(key, params) + Interpolate(rest, params)
  {
    var t := "{" + key + "}" + rest;
    PlaceholderOf(key, rest);
    assert t[|key| + 2..] == rest;
  }

  /**
   * A substituted value is not scanned again: it comes out as it is, even
   * when it holds placeholders of keys that are present.
   */
  lemma SinglePass(key: string, value: string, rest: string, params: map<string, Param>)
    requires key != [] && forall i :: 0 <= i < |key| ==> IsWordChar(key[i])
    requires key in params && params[key] == StringParam(value)
    ensures Interpolate("{" + key + "}" + rest, params) == value + Interpolate(rest, params)
  {
    InterpolatePlaceholder(key, rest, params);
  }

  /** Braces around nothing are not a placeholder. */
  lemma EmptyBracesKept(params: map<string, Param>)
    ensures Interpolate("{}", params) == "{}"
  {
    assert PlaceholderAt("{}").None? by { assert WordPrefix("}") == []; }
    assert "{}"[1..] == "}";
    assert PlaceholderAt("}").None?;
  }

  /** Braces around a non-word character are not a placeholder. */
  lemma NonWordBracesKept(params: map<string, Param>)
    ensures Interpolate("{a-b}", params) == "{a-b}"
  {
    var t := "{a-b}";
    assert PlaceholderAt(t).None? by {
      assert t[1..] == "a-b}";
      assert WordPrefix("a-b}") == "a" by { assert WordPrefix("-b}") == []; }
    }
    assert t[1..] == "a-b}" && t[2..] == "-b}" && t[3..] == "b}" && t[4..] == "}";
    assert PlaceholderAt("a-b}").None? && PlaceholderAt("-b}").None?;
    assert PlaceholderAt("b}").None? && PlaceholderAt("}").None?;
  }

  // ---------------------------------------------------------------------
  // t and the locale
  // ---------------------------------------------------------------------

  /** t: the message for `key` in the current messages, interpolated when parameters are given; the key itself when missing. */
  function T(messages: Msg, key: string, params: Option<map<string, Param>>): (r: string)
    ensures NestedValue(messages, key).None? ==> r == key
    ensures NestedValue(messages, key).Some? && params.None? ==> r == NestedValue(messages, key).value
    ensures NestedValue(messages, key).Some? && params.Some? ==> r == Interpolate(NestedValue(messages, key).value, params.value)
  {
    match NestedValue(messages, key)
    case None => key
    case Some(value) => if params.Some? then Interpolate(value, params.value) else value
  }

  /** Passing an empty parameter object gives the same text as passing none. */
  lemma TEmptyParams(messages: Msg, key: string)
    ensures T(messages, key, Some(map[])) == T(messages, key, None)
  {
    if NestedValue(messages, key).Some? {
      InterpolateNoParams(NestedValue(messages, key).value);
    }
  }

  /** The keys of the message table. */
  const Locales: set<string> := {"en-US", "en", "zh-CN", "zh"}
  const DefaultLocale: string := "en-US"

  /** The names every object inherits from Object.prototype, which `in` also finds. */
  const InheritedNames: set<string> := {
    "constructor", "hasOwnProperty", "isPrototypeOf", "propertyIsEnumerable", "toLocaleString",
    "toString", "valueOf", "__proto__", "__defineGetter__", "__defineSetter__",
    "__lookupGetter__", "__lookupSetter__"}

  /** `current in messages` as JavaScript evaluates it. */
  predicate InMessages(name: string) {
    name in Locales || name in InheritedNames
  }

  /** The locale as the code writes it: the stored locale or the default, kept when `in` finds it. */
  function ResolveLocaleAsWritten(stored: string): (r: string)
    ensures stored in Locales ==> r == stored
    ensures stored == [] ==> r == DefaultLocale
  {
    var current := if stored != [] then stored else DefaultLocale;
    if InMessages(current) then current else DefaultLocale
  }

  /**
   * `messages[locale] || messages[defaultLocale]`: the English table for
   * `en-US` and `en`, the Chinese one for `zh-CN` and `zh`. A name that only
   * `in` finds yields an inherited function, which is truthy; its own
   * properties are not modelled.
   */
  function CurrentMessages(locale: string, en: Msg, zh: Msg): (m: Msg)
    // every locale of the table selects one of the two message tables
    ensures locale in Locales ==> m == en || m == zh
    // a name that only `in` finds selects no table at all
    ensures locale in InheritedNames ==> m == Other
  {
    if locale == "en-US" || locale == "en" then en
    else if locale == "zh-CN" || locale == "zh" then zh
    else if locale in InheritedNames then Other
    else en
  }

  /** A stored locale named like an inherited property is kept, and names no message table. */
  lemma InheritedNameEscapes()
    ensures ResolveLocaleAsWritten("toString") == "toString"
    ensures ResolveLocaleAsWritten("toString") !in Locales
  {
  }

  /** With that locale every translation falls back to the bare key. */
  lemma InheritedNameShowsKeys(en: Msg, zh: Msg, key: string, params: Option<map<string, Param>>)
    ensures T(CurrentMessages(ResolveLocaleAsWritten("toString"), en, zh), key, params) == key
  {
    assert CurrentMessages("toString", en, zh) == Other;
  }

  /** The locale as intended: the stored locale when it is a key of the table, otherwise the default. */
  function ResolveLocale(stored: string): (r: string)
    ensures r in Locales
    ensures stored in Locales ==> r == stored
    ensures stored !in Locales ==> r == DefaultLocale
  {
    var current := if stored != [] then stored else DefaultLocale;
    if current in Locales then current else DefaultLocale
  }

  /** The intended locale always selects one of the two message tables. */
  lemma ResolvedLocaleHasTable(stored: string, en: Msg, zh: Msg)
    ensures CurrentMessages(ResolveLocale(stored), en, zh) == en || CurrentMessages(ResolveLocale(stored), en, zh) == zh
  {
  }

  /** The two agree on every name that is not an inherited property. */
  lemma ResolveLocaleAgrees(stored: string)
    requires stored !in InheritedNames
    ensures ResolveLocaleAsWritten(stored) == ResolveLocale(stored)
  {
  }
}
