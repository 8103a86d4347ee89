/**
 * Client-side translation (i18n/client.ts): splitting a key into group and
 * key, looking it up in the per-locale table cache with its fall-backs to the
 * bare key, `{name}` placeholder formatting, and the URL the locale switch
 * navigates to.  Local storage and the translation fetch are inputs and
 * outputs of the lookup, not effects.
 */
module I18nClient {
  import opened Wrappers
  import opened Strings
  import Middleware

  /** The `Bad key` error `t` throws. */
  datatype KeyError = BadKey

  /** A translation key: the group (table) it lives in and its name there. */
  datatype Key = Key(group: string, name: string)

  /**
   * `group.key[.ignored...]`, or a bare `key` in the `common` group; the
   * empty text is refused.
   */
  function ParseKey(text: string): (r: Result<Key, KeyError>)
    ensures r.Failure? <==> text == ""
  {
    if text == "" then Failure(BadKey)
    else
      var parts := Split(text, {'.'});
      if |parts| == 1 then Success(Key("common", parts[0])) else Success(Key(parts[0], parts[1]))
  }

  /** A key without a dot is looked up under its own name in `common`. */
  lemma {:induction false} UndottedKeyIsCommon(text: string)
    requires text != "" && forall j :: 0 <= j < |text| ==> text[j] != '.'
    ensures ParseKey(text) == Success(Key("common", text))
  {
    SplitNoSeparator(text, {'.'});
  }

  /**
   * In `group.name` followed by nothing or by `.more`, the group is the text
   * before the first dot and the name the text up to the second; `more` is ignored.
   */
  lemma {:induction false} DottedKeyParts(group: string, name: string, more: Option<string>)
    requires forall j :: 0 <= j < |group| ==> group[j] != '.'
    requires forall j :: 0 <= j < |name| ==> name[j] != '.'
    ensures var text := group + "." + name + (if more.Some? then "." + more.value else "");
            ParseKey(text) == Success(Key(group, name))
  {
    var rest := if more.Some? then "." + more.value else "";
    var text := group + "." + name + rest;
    assert text == group + ['.'] + (name + rest);
    SplitAtFirst(group, '.', name + rest, {'.'});
    if more.Some? {
      assert name + rest == name + ['.'] + more.value;
      SplitAtFirst(name, '.', more.value, {'.'});
    } else {
      assert name + rest == name;
      SplitNoSeparator(name, {'.'});
    }
  }

  /** A group's entry in the per-locale cache: the `EMPTY` sentinel or a loaded table. */
  datatype Table = Empty | Loaded(entries: map<string, string>)

  /**
   * What local storage holds for a group of the current locale: nothing, a
   * table of strings, JSON `null`, a number or a boolean (`Scalar`), or text
   * that does not parse.
   */
  datatype Stored = Absent | Saved(entries: map<string, string>) | Scalar | Unparsable

  /**
   * The table a miss stores: a missing item parses as `{}`, an unparsable
   * one gives `EMPTY`.  A scalar has no own keys, so it reads as the empty table.
   */
  function Load(stored: Stored): (t: Table)
    ensures stored.Unparsable? <==> t.Empty?
    ensures stored.Saved? ==> t == Loaded(stored.entries)
    ensures stored.Absent? || stored.Scalar? ==> t == Loaded(map[])
  {
    match stored
    case Absent => Loaded(map[])
    case Saved(m) => Loaded(m)
    case Scalar => Loaded(map[])
    case Unparsable => Empty
  }

  /** Placeholder substitution for a list of arguments, in argument order. */
  function Formatted(text: string, args: seq<(string, string)>): string
    decreases |args|
  {
    if args == [] then text
    else Formatted(ReplaceFirst(text, "{" + args[0].0 + "}", args[0].1), args[1..])
  }

  /** `formatTranslation`: absent arguments or an empty text leave the text as it is. */
  function Format(text: string, args: Option<seq<(string, string)>>): string
  {
    if args.None? || text == "" then text else Formatted(text, args.value)
  }

  /** `formatTranslation`, as the loop over the argument entries it is. */
  method FormatTranslation(text: string, args: Option<seq<(string, string)>>) returns (r: string)
    ensures r == Format(text, args)
    ensures args.None? || text == "" ==> r == text
  {
    if args.None? || text == "" {
      return text;
    }
    var entries := args.value;
    r := text;
    for i := 0 to |entries|
      invariant Formatted(r, entries[i..]) == Formatted(text, entries)
    {
      assert entries[i..][1..] == entries[i + 1..];
      r := ReplaceFirst(r, "{" + entries[i].0 + "}", entries[i].1);
    }
    assert entries[|entries|..] == [];
  }

  /** Formatting with `a + b` is formatting with `a`, then with `b`. */
  lemma {:induction false} FormattedInOrder(text: string, a: seq<(string, string)>, b: seq<(string, string)>)
    ensures Formatted(text, a + b) == Formatted(Formatted(text, a), b)
    decreases |a|
  {
    if a != [] {
      assert (a + b)[1..] == a[1..] + b;
      FormattedInOrder(ReplaceFirst(text, "{" + a[0].0 + "}", a[0].1), a[1..], b);
    } else {
      assert a + b == b;
    }
  }

  /** A text without `{` holds no placeholder, so formatting never changes it. */
  lemma {:induction false} FormattedWithoutBraces(text: string, args: seq<(string, string)>)
    requires forall j :: 0 <= j < |text| ==> text[j] != '{'
    ensures Formatted(text, args) == text
    decreases |args|
  {
    if args != [] {
      var pat := "{" + args[0].0 + "}";
      forall q: nat ensures !OccursAt(text, pat, q) {
        if q + |pat| <= |text| {
          assert text[q..q + |pat|][0] == text[q] != pat[0];
        }
      }
      IndexOfNone(text, pat, 0);
      FormattedWithoutBraces(text, args[1..]);
    }
  }

  /**
   * One argument replaces only the FIRST `{name}`: with `name`'s placeholder
   * first at `i` and a value without `$`, the text becomes the part before
   * `i`, the value, and the rest untouched, later `{name}` occurrences included.
   */
  lemma {:induction false} FormattedReplacesFirstOnly(text: string, name: string, value: string, i: nat)
    requires OccursAt(text, "{" + name + "}", i)
    requires forall q :: 0 <= q < i ==> !OccursAt(text, "{" + name + "}", q)
    requires forall j :: 0 <= j < |value| ==> value[j] != '$'
    ensures Formatted(text, [(name, value)]) == text[..i] + value + text[i + |name| + 2..]
  {
    var pat := "{" + name + "}";
    IndexOfIs(text, pat, 0, i);
    ExpandLiteral(value, pat, text[..i], text[i + |pat|..]);
    assert [(name, value)][1..] == [];
  }

  /**
   * The string `t` returns for the key `name` when the group's table, as read
   * before the call, is `table`: the bare key whenever the table is missing or
   * empty, has no (or an empty) entry, or formats to the empty string.
   */
  function Lookup(table: Option<Table>, name: string, args: Option<seq<(string, string)>>): string
  {
    if table.None? || table.value.Empty? || table.value.entries == map[] then name
    else if name !in table.value.entries || table.value.entries[name] == "" then name
    else
      var formatted := Format(table.value.entries[name], args);
      if formatted == "" then name else formatted
  }

  /** What `t(text, args)` returns against the cache `keys`. */
  function Translation(keys: map<string, Table>, text: string, args: Option<seq<(string, string)>>): Result<string, KeyError>
  {
    match ParseKey(text)
    case Failure(e) => Failure(e)
    case Success(k) => Success(Lookup(if k.group in keys then Some(keys[k.group]) else None, k.name, args))
  }

  /** The cache after `t(text, ...)`: a group seen for the first time gets the table loaded from storage. */
  function KeysAfter(keys: map<string, Table>, text: string, stored: Stored): map<string, Table>
  {
    match ParseKey(text)
    case Failure(_) => keys
    case Success(k) => if k.group in keys then keys else keys[k.group := Load(stored)]
  }

  /** The result is the key's name or a non-empty translation: never empty unless the name is. */
  lemma {:induction false} TranslationNeverEmpty(keys: map<string, Table>, text: string, args: Option<seq<(string, string)>>)
    requires ParseKey(text).Success?
    ensures var r := Translation(keys, text, args);
            r.Success? && (r.value == ParseKey(text).value.name || r.value != "")
  {
  }

  /**
   * The fall-backs of `t` to the key's name: when its group has no table
   * yet, when the table is `EMPTY` or has no entries, when the name has no
   * entry or an empty one; otherwise the formatted entry, unless that
   * formats to the empty string.
   */
  lemma {:induction false} TranslationFallsBack(keys: map<string, Table>, text: string, args: Option<seq<(string, string)>>)
    requires ParseKey(text).Success?
    ensures var k := ParseKey(text).value;
            var r := Translation(keys, text, args);
            && (k.group !in keys ==> r == Success(k.name))
            && (k.group in keys && (keys[k.group].Empty? || k.name !in keys[k.group].entries) ==> r == Success(k.name))
            && (k.group in keys && keys[k.group].Loaded? && k.name in keys[k.group].entries ==>
                  var entry := keys[k.group].entries[k.name];
                  && (entry == "" ==> r == Success(k.name))
                  && (entry != "" && Format(entry, args) != "" ==> r == Success(Format(entry, args)))
                  && (entry != "" && Format(entry, args) == "" ==> r == Success(k.name)))
  {
  }

  /** As written, a key ending in a dot names the empty key, and its first lookup answers the empty string. */
  lemma {:induction false} DanglingDotGivesEmpty()
    ensures ParseKey("a.") == Success(Key("a", ""))
    ensures Translation(map[], "a.", None) == Success("")
  {
    DottedKeyParts("a", "", None);
    assert "a" + "." + "" + "" == "a.";
  }

  /** Key parsing as evidently intended: a key with an empty name is refused like the empty text. */
  function ParseKeyChecked(text: string): (r: Result<Key, KeyError>)
    ensures r.Failure? <==> text == "" || ParseKey(text).value.name == ""
    ensures r.Success? ==> r == ParseKey(text) && r.value.name != ""
  {
    match ParseKey(text)
    case Failure(e) => Failure(e)
    case Success(k) => if k.name == "" then Failure(BadKey) else Success(k)
  }

  /** `t` with the intended key check. */
  function TranslationChecked(keys: map<string, Table>, text: string, args: Option<seq<(string, string)>>): Result<string, KeyError>
  {
    match ParseKeyChecked(text)
    case Failure(e) => Failure(e)
    case Success(k) => Success(Lookup(if k.group in keys then Some(keys[k.group]) else None, k.name, args))
  }

  /** With the intended key check `t` never answers the empty string, and agrees with `t` on every key it accepts. */
  lemma {:induction false} TranslationCheckedNeverEmpty(keys: map<string, Table>, text: string, args: Option<seq<(string, string)>>)
    ensures var r := TranslationChecked(keys, text, args);
            && (r.Success? ==> r.value != "" && r == Translation(keys, text, args))
            && (r.Failure? <==> text == "" || ParseKey(text).value.name == "")
  {
    if TranslationChecked(keys, text, args).Success? {
      TranslationNeverEmpty(keys, text, args);
    }
  }

  /** The first lookup of a group returns the bare key, whatever local storage holds. */
  lemma {:induction false} FirstLookupIsBareKey(keys: map<string, Table>, text: string, args: Option<seq<(string, string)>>)
    requires ParseKey(text).Success? && ParseKey(text).value.group !in keys
    ensures Translation(keys, text, args) == Success(ParseKey(text).value.name)
  {
  }

  /**
   * The per-group load-once invariant: after any lookup its group is cached,
   * other groups are untouched, and a later lookup in the same group leaves
   * the cache as it is (it never re-enters the miss branch).
   */
  lemma {:induction false} LoadedOnce(keys: map<string, Table>, text: string, stored: Stored, text': string, stored': Stored)
    requires ParseKey(text).Success? && ParseKey(text').Success?
    requires ParseKey(text').value.group == ParseKey(text).value.group
    ensures var after := KeysAfter(keys, text, stored);
            && ParseKey(text).value.group in after
            && (forall g :: g in keys && g != ParseKey(text).value.group ==> g in after && after[g] == keys[g])
            && KeysAfter(after, text', stored') == after
  {
  }

  /**
   * A stored `null`, number or boolean pins its group: every later key in it
   * answers its bare name, and the group is never loaded again.
   */
  lemma {:induction false} ScalarPinsGroup(keys: map<string, Table>, text: string, text': string,
                                           args: Option<seq<(string, string)>>, stored': Stored)
    requires ParseKey(text).Success? && ParseKey(text').Success?
    requires ParseKey(text').value.group == ParseKey(text).value.group && ParseKey(text).value.group !in keys
    ensures var after := KeysAfter(keys, text, Scalar);
            && Translation(after, text', args) == Success(ParseKey(text').value.name)
            && KeysAfter(after, text', stored') == after
  {
  }

  /**
   * The translation function of `useI18n` over the per-locale cache `keys`
   * (`translation[currentLocale]`), which it fills in place one group at a time.
   */
  class Translator {
    var keys: map<string, Table>
    /** `isCurrentLocaleSet`: while it is false a miss starts no fetch. */
    const localeSet: bool

    constructor (keys: map<string, Table>, localeSet: bool)
      ensures this.keys == keys && this.localeSet == localeSet
    {
      this.keys := keys;
      this.localeSet := localeSet;
    }

    /**
     * `t(text, args)`, with `stored` what local storage holds for the key's
     * group; `fetches` says whether the call starts a fetch of that group.
     */
    method Translate(text: string, args: Option<seq<(string, string)>>, stored: Stored)
      returns (r: Result<string, KeyError>, fetches: bool)
      modifies this
      ensures r == Translation(old(keys), text, args)
      ensures keys == KeysAfter(old(keys), text, stored)
      ensures fetches <==> localeSet && r.Success? && ParseKey(text).value.group !in old(keys)
    {
      fetches := false;
      if text == "" {
        return Failure(BadKey), false;
      }
      var parts := Split(text, {'.'});
      var group := if |parts| == 1 then "common" else parts[0];
      var name := if |parts| == 1 then parts[0] else parts[1];
      var value := if group in keys then Some(keys[group]) else None;
      if value.None? {
        keys := keys[group := Load(stored)];
        if !localeSet {
          return Success(name), false;
        }
        fetches := true;
      }
      if value.None? || value.value.Empty? || value.value.entries == map[] {
        return Success(name), fetches;
      }
      var entries := value.value.entries;
      if name !in entries || entries[name] == "" {
        return Success(name), fetches;
      }
      var formatted := FormatTranslation(entries[name], args);
      r := Success(if formatted == "" then name else formatted);
    }
  }

  /** The URL `useChangeLocale` navigates to: the rewritten path and the current query string. */
  function ChangeLocaleUrl(pathname: string, locale: string, locales: seq<string>, query: string): (url: string)
    ensures StartsWith(url, "/" + locale)
  {
    var path := Middleware.RewritePath(pathname, locale, locales);
    var url := path + "?" + query;
    assert url[..|"/" + locale|] == path[..|"/" + locale|];
    url
  }

  /** Switching locale moves `/xx/rest` to `/<new>/rest` and a locale-less path behind `/<new>`. */
  lemma {:induction false} ChangeLocaleRewrites(l: string, rest: string, pathname: string, locale: string,
                             locales: seq<string>, query: string)
    requires l in locales && |l| == 2
    requires !Middleware.HasLocale(pathname, locales)
    ensures ChangeLocaleUrl("/" + l + "/" + rest, locale, locales, query) == "/" + locale + "/" + rest + "?" + query
    ensures ChangeLocaleUrl(pathname, locale, locales, query) == "/" + locale + pathname + "?" + query
  {
    Middleware.RewriteKeepsRest(l, rest, locale, locales);
    Middleware.RewriteUnprefixed(pathname, locale, locales);
  }
}
