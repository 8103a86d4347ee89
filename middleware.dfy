/**
 * The request middleware that picks the user's locale and redirects requests
 * whose path does not carry it (middleware.ts).  The locale comes from the
 * `Locale` cookie or, failing that, from a loose reading of the
 * `Accept-Language` header: q-values are ignored and tags are split on `-`,
 * so region subtags become tokens of their own.  Bot detection and the route
 * matcher are inputs.
 */
module Middleware {
  import opened Wrappers
  import opened Strings

  /** What the middleware does with one request. */
  datatype Decision = PassThrough | Redirect(path: string, cookie: string)

  /** `pathname` carries a supported locale prefix: it is `/l` or starts with `/l/`. */
  predicate HasLocale(pathname: string, locales: seq<string>)
  {
    exists l :: l in locales && (StartsWith(pathname, "/" + l + "/") || pathname == "/" + l)
  }

  /**
   * The path a request for `pathname` is moved to under `locale`: a prefixed
   * path loses its first four characters (the `/xx/` of a two-letter locale),
   * any other path is prefixed whole.  Shared by the middleware and the
   * client-side locale switch.
   */
  function RewritePath(pathname: string, locale: string, locales: seq<string>): (r: string)
    ensures StartsWith(r, "/" + locale)
  {
    var prefix := "/" + locale;
    var r := if HasLocale(pathname, locales) then prefix + "/" + SliceFrom(pathname, 4) else prefix + pathname;
    assert r[..|prefix|] == prefix;
    r
  }

  /** A path `/l/rest` with a two-letter supported `l` keeps `rest` under the new locale. */
  lemma {:induction false} RewriteKeepsRest(l: string, rest: string, locale: string, locales: seq<string>)
    requires l in locales && |l| == 2
    ensures RewritePath("/" + l + "/" + rest, locale, locales) == "/" + locale + "/" + rest
  {
    var p := "/" + l + "/" + rest;
    assert StartsWith(p, "/" + l + "/") by { assert p[..|"/" + l + "/"|] == "/" + l + "/"; }
    assert SliceFrom(p, 4) == rest;
  }

  /** A path without a locale prefix is kept whole behind the new locale. */
  lemma {:induction false} RewriteUnprefixed(pathname: string, locale: string, locales: seq<string>)
    requires !HasLocale(pathname, locales)
    ensures RewritePath(pathname, locale, locales) == "/" + locale + pathname
  {
  }

  /** The header tokens: split on `;`, `-` and `,`, empties dropped, then lower-cased and trimmed. */
  function Tokens(parts: seq<string>): (tokens: seq<string>)
    ensures |tokens| <= |parts|
  {
    if parts == [] then []
    else (if parts[0] != "" then [Trim(Lower(parts[0]))] else []) + Tokens(parts[1..])
  }

  function HeaderTokens(header: string): seq<string>
  {
    Tokens(Split(header, {';', '-', ','}))
  }

  /** The tokens that name a supported locale, in their order. */
  function Supported(tokens: seq<string>, locales: seq<string>): (r: seq<string>)
    ensures forall t :: t in r ==> t in locales
  {
    if tokens == [] then []
    else (if tokens[0] in locales then [tokens[0]] else []) + Supported(tokens[1..], locales)
  }

  /**
   * The locale the request asks for: the lower-cased cookie when it is
   * non-empty, otherwise the first supported header token (the default
   * locale when there is no header); anything unsupported becomes the default.
   */
  function ChooseLocale(cookie: Option<string>, header: Option<string>,
                        locales: seq<string>, defaultLocale: string): (locale: string)
    ensures locale in locales || locale == defaultLocale
  {
    var asked: Option<string> :=
      if cookie.Some? && Lower(cookie.value) != "" then Some(Lower(cookie.value))
      else if header.None? then Some(defaultLocale)
      else
        var supported := Supported(HeaderTokens(header.value), locales);
        if supported != [] then Some(supported[0]) else None;
    if asked.Some? && asked.value in locales then asked.value else defaultLocale
  }

  /** The middleware's decision for one request. */
  function Decide(cookie: Option<string>, header: Option<string>, pathname: string, isBot: bool,
                  locales: seq<string>, defaultLocale: string): (d: Decision)
    ensures d.Redirect? ==> StartsWith(d.path, "/" + d.cookie)
  {
    var hasLocale := HasLocale(pathname, locales);
    if hasLocale && isBot then PassThrough
    else
      var locale := if hasLocale then ChooseLocale(cookie, header, locales, defaultLocale) else "en";
      if hasLocale && Lower(Slice(pathname, 1, 3)) == locale then PassThrough
      else Redirect(RewritePath(pathname, locale, locales), locale)
  }

  /** With a supported default, the chosen locale is always a supported one. */
  lemma {:induction false} ChosenIsSupported(cookie: Option<string>, header: Option<string>,
                          locales: seq<string>, defaultLocale: string)
    requires defaultLocale in locales
    ensures ChooseLocale(cookie, header, locales, defaultLocale) in locales
  {
  }

  /** A non-empty cookie decides alone: its lower-cased value if supported, else the default. */
  lemma {:induction false} CookieDecides(c: string, header: Option<string>, locales: seq<string>, defaultLocale: string)
    requires Lower(c) != ""
    ensures ChooseLocale(Some(c), header, locales, defaultLocale)
            == if Lower(c) in locales then Lower(c) else defaultLocale
  {
  }

  /** The supported tokens are exactly the supported ones among `tokens`, in order. */
  lemma {:induction false} SupportedHead(tokens: seq<string>, locales: seq<string>)
    ensures Supported(tokens, locales) != [] <==> exists i :: 0 <= i < |tokens| && tokens[i] in locales
    ensures Supported(tokens, locales) != [] ==>
              exists i :: 0 <= i < |tokens| && tokens[i] in locales && Supported(tokens, locales)[0] == tokens[i]
                          && forall j :: 0 <= j < i ==> tokens[j] !in locales
  {
    if tokens != [] {
      SupportedHead(tokens[1..], locales);
      if tokens[0] !in locales {
        if exists i :: 0 <= i < |tokens| && tokens[i] in locales {
          var i :| 0 <= i < |tokens| && tokens[i] in locales;
          assert i > 0 && tokens[1..][i - 1] in locales;
        }
        if Supported(tokens, locales) != [] {
          var i :| 0 <= i < |tokens[1..]| && tokens[1..][i] in locales
                   && Supported(tokens[1..], locales)[0] == tokens[1..][i]
                   && forall j :: 0 <= j < i ==> tokens[1..][j] !in locales;
          assert forall j :: 0 <= j < i + 1 ==> tokens[j] !in locales by {
            forall j | 0 <= j < i + 1 ensures tokens[j] !in locales {
              if j > 0 { assert tokens[j] == tokens[1..][j - 1]; }
            }
          }
        }
      }
    }
  }

  /**
   * Without a usable cookie and with a header, the chosen locale is the first
   * header token that is supported, or the default when none is.
   */
  lemma {:induction false} FirstSupportedTokenWins(cookie: Option<string>, header: string,
                                locales: seq<string>, defaultLocale: string)
    requires cookie.None? || Lower(cookie.value) == ""
    ensures var tokens := HeaderTokens(header);
            (forall j :: 0 <= j < |tokens| ==> tokens[j] !in locales) ==>
              ChooseLocale(cookie, Some(header), locales, defaultLocale) == defaultLocale
    ensures var tokens := HeaderTokens(header);
            forall i :: (0 <= i < |tokens| && tokens[i] in locales && forall j :: 0 <= j < i ==> tokens[j] !in locales) ==>
              ChooseLocale(cookie, Some(header), locales, defaultLocale) == tokens[i]
  {
    var tokens := HeaderTokens(header);
    SupportedHead(tokens, locales);
    forall i | 0 <= i < |tokens| && tokens[i] in locales && (forall j :: 0 <= j < i ==> tokens[j] !in locales)
      ensures ChooseLocale(cookie, Some(header), locales, defaultLocale) == tokens[i]
    {
      var k :| 0 <= k < |tokens| && tokens[k] in locales && Supported(tokens, locales)[0] == tokens[k]
               && forall j :: 0 <= j < k ==> tokens[j] !in locales;
    }
  }

  /** A locale-prefixed path is never redirected for a bot. */
  lemma {:induction false} BotsPassOnPrefixedPaths(cookie: Option<string>, header: Option<string>, pathname: string,
                                locales: seq<string>, defaultLocale: string)
    requires HasLocale(pathname, locales)
    ensures Decide(cookie, header, pathname, true, locales, defaultLocale) == PassThrough
  {
  }

  /** A path without a locale prefix always goes to `/en` + path, whatever the request asks for. */
  lemma {:induction false} UnprefixedGoesToEnglish(cookie: Option<string>, header: Option<string>, pathname: string,
                                isBot: bool, locales: seq<string>, defaultLocale: string)
    requires !HasLocale(pathname, locales)
    ensures Decide(cookie, header, pathname, isBot, locales, defaultLocale) == Redirect("/en" + pathname, "en")
  {
    RewriteUnprefixed(pathname, "en", locales);
  }

  /**
   * A prefixed path from a person passes iff its two characters after `/`,
   * lower-cased, are the chosen locale; otherwise it is moved under that locale.
   */
  lemma {:induction false} PrefixedPathDecision(cookie: Option<string>, header: Option<string>, pathname: string,
                             locales: seq<string>, defaultLocale: string)
    requires HasLocale(pathname, locales)
    ensures var locale := ChooseLocale(cookie, header, locales, defaultLocale);
            Decide(cookie, header, pathname, false, locales, defaultLocale)
            == if Lower(Slice(pathname, 1, 3)) == locale then PassThrough
               else Redirect("/" + locale + "/" + SliceFrom(pathname, 4), locale)
  {
  }

  /**
   * Redirects settle: when every locale is two lower-case letters and both the
   * default and `en` are supported, the request the browser makes after a
   * redirect (to its path, with its cookie) passes through.
   */
  lemma {:induction false} RedirectSettles(cookie: Option<string>, header: Option<string>, pathname: string, isBot: bool,
                        locales: seq<string>, defaultLocale: string, header': Option<string>, isBot': bool)
    requires forall l :: l in locales ==> |l| == 2 && Lower(l) == l
    requires defaultLocale in locales && "en" in locales
    requires StartsWith(pathname, "/")
    requires Decide(cookie, header, pathname, isBot, locales, defaultLocale).Redirect?
    ensures var d := Decide(cookie, header, pathname, isBot, locales, defaultLocale);
            Decide(Some(d.cookie), header', d.path, isBot', locales, defaultLocale) == PassThrough
  {
    var d := Decide(cookie, header, pathname, isBot, locales, defaultLocale);
    var c, p := d.cookie, d.path;
    ChosenIsSupported(cookie, header, locales, defaultLocale);
    assert c in locales;
    assert |c| == 2 && Lower(c) == c;
    assert StartsWith(p, "/" + c + "/") by {
      if HasLocale(pathname, locales) {
        assert p == "/" + c + "/" + SliceFrom(pathname, 4);
      } else {
        assert p == "/" + c + pathname;
        assert p[..4] == "/" + c + "/";
      }
    }
    assert HasLocale(p, locales);
    assert Slice(p, 1, 3) == c;
    CookieDecides(c, header', locales, defaultLocale);
  }
}
