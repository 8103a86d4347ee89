/**
 * The search-parameter validators of `query/search-query.ts`: the sort
 * choice, the pagination fields with their defaults and lower bounds, the
 * item search fields, and the translation page's locale pair.  Each schema
 * is a parse from the page's search parameters to a record, or to the list
 * of the fields that failed, in the order the schema declares them.
 */
module SearchQuery {
  import opened Wrappers
  import opened Strings

  /** A search parameter as the page receives it: absent, given once, or repeated. */
  datatype Value = Undefined | Text(s: string) | List(items: seq<string>)

  /** A JavaScript number. */
  datatype Num = NaN | PosInf | NegInf | Finite(r: real)

  /** Why one field was refused. */
  datatype Issue = NotANumber | TooSmall | NotAString | NotAnOption

  /** The search parameters by name; a name that is not there reads as `undefined`. */
  type Query = map<string, Value>

  function Get(query: Query, key: string): Value
  {
    if key in query then query[key] else Undefined
  }

  /**
   * `Number(value)`: a string goes through the string-to-number conversion
   * `number`, an array through the conversion of `items.join(',')`, and
   * `undefined` gives `NaN`.
   */
  function Coerce(v: Value, number: string -> Num): (n: Num)
    ensures v.Text? ==> n == number(v.s)
    ensures v.List? ==> n == number(Join(v.items, ','))
    ensures v.Undefined? ==> n.NaN?
  {
    match v
    case Undefined => NaN
    case Text(s) => number(s)
    case List(items) => number(Join(items, ','))
  }

  /** `n >= bound` for a number that is not `NaN`. */
  predicate AtLeast(n: Num, bound: real)
  {
    match n
    case NaN => false
    case PosInf => true
    case NegInf => false
    case Finite(r) => r >= bound
  }

  /**
   * `z.coerce.number().gte(bound).default(fallback)`: a missing value takes
   * the default, which is then checked like a given one; any other value is
   * coerced, and refused when it is `NaN` or below the bound.
   */
  function NumberAtLeast(v: Value, bound: real, fallback: real, number: string -> Num): (r: Result<Num, Issue>)
    ensures v.Undefined? && fallback >= bound ==> r == Success(Finite(fallback))
    ensures !v.Undefined? && r.Success? ==> r.value == Coerce(v, number)
    ensures r.Success? ==> AtLeast(r.value, bound)
    ensures r.Failure? <==> !AtLeast(if v.Undefined? then Finite(fallback) else Coerce(v, number), bound)
    ensures r.Failure? ==> (r.error == NotANumber <==> !v.Undefined? && Coerce(v, number).NaN?)
  {
    var n := if v.Undefined? then Finite(fallback) else Coerce(v, number);
    if n.NaN? then Failure(NotANumber)
    else if !AtLeast(n, bound) then Failure(TooSmall)
    else Success(n)
  }

  /** `size`: at least 1, 30 when missing. */
  function Size(v: Value, number: string -> Num): (r: Result<Num, Issue>)
    ensures v.Undefined? ==> r == Success(Finite(30.0))
    ensures !v.Undefined? && r.Success? ==> r.value == Coerce(v, number)
    ensures r.Success? ==> AtLeast(r.value, 1.0)
  {
    NumberAtLeast(v, 1.0, 30.0, number)
  }

  /** `page`: at least 0, 0 when missing. */
  function Page(v: Value, number: string -> Num): (r: Result<Num, Issue>)
    ensures v.Undefined? ==> r == Success(Finite(0.0))
    ensures !v.Undefined? && r.Success? ==> r.value == Coerce(v, number)
    ensures r.Success? ==> AtLeast(r.value, 0.0)
  {
    NumberAtLeast(v, 0.0, 0.0, number)
  }

  /**
   * `sortSchema`: one of `sortTags` as given; anything else, a missing value
   * included, falls back to `defaultSortTag` (by the default, or by the catch
   * when the default itself is not a tag).  It never fails.
   */
  function Sort(v: Value, sortTags: seq<string>, defaultSortTag: string): (tag: string)
    ensures tag in sortTags || tag == defaultSortTag
    ensures v.Text? && v.s in sortTags ==> tag == v.s
    ensures !(v.Text? && v.s in sortTags) ==> tag == defaultSortTag
  {
    if v.Text? && v.s in sortTags then v.s else defaultSortTag
  }

  /** Sorting again by the chosen tag keeps it: the sort a page shows is a fixed point of the schema. */
  lemma {:induction false} SortIdempotent(v: Value, sortTags: seq<string>, defaultSortTag: string)
    ensures Sort(Text(Sort(v, sortTags, defaultSortTag)), sortTags, defaultSortTag) == Sort(v, sortTags, defaultSortTag)
  {
  }

  /**
   * `tags`: `.default([])` sits inside `.optional()`, so a missing value stays
   * `undefined`; an array is kept as it is and a single value becomes a list
   * of that one value.  It never fails.
   */
  function Tags(v: Value): (tags: Option<seq<string>>)
    ensures tags.None? <==> v.Undefined?
    ensures v.Text? ==> tags == Some([v.s])
    ensures v.List? ==> tags == Some(v.items)
  {
    match v
    case Undefined => None
    case Text(s) => Some([s])
    case List(items) => Some(items)
  }

  /** Reading the tags back as a list gives the same tags: the wrapping happens once. */
  lemma {:induction false} TagsStable(v: Value)
    requires !v.Undefined?
    ensures Tags(List(Tags(v).value)) == Tags(v)
  {
  }

  /** `z.string().optional()`: a missing value is absent, a repeated one is refused. */
  function OptionalString(v: Value): (r: Result<Option<string>, Issue>)
    ensures r.Failure? <==> v.List?
    ensures v.Undefined? ==> r == Success(None)
    ensures v.Text? ==> r == Success(Some(v.s))
  {
    match v
    case Undefined => Success(None)
    case Text(s) => Success(Some(s))
    case List(_) => Failure(NotAString)
  }

  /**
   * `z.enum(locales).default(fallback)`: a missing value takes the default,
   * which is checked like a given one; a value outside `locales` is refused.
   */
  function Locale(v: Value, locales: seq<string>, fallback: string): (r: Result<string, Issue>)
    ensures r.Success? ==> r.value in locales
    ensures r.Success? <==> (v.Undefined? && fallback in locales) || (v.Text? && v.s in locales)
    ensures r.Success? && v.Undefined? ==> r.value == fallback
    ensures r.Success? && v.Text? ==> r.value == v.s
  {
    var given := if v.Undefined? then Text(fallback) else v;
    if given.Text? && given.s in locales then Success(given.s) else Failure(NotAnOption)
  }

  /** The result of `PaginationQuery`. */
  datatype Pagination = Pagination(size: Num, page: Num)

  /** `PaginationQuery.parse`: the two pagination fields, nothing else kept. */
  function PaginationQuery(query: Query, number: string -> Num): (r: Result<Pagination, seq<string>>)
    ensures r.Success? <==> Size(Get(query, "size"), number).Success? && Page(Get(query, "page"), number).Success?
    ensures r.Success? ==> AtLeast(r.value.size, 1.0) && AtLeast(r.value.page, 0.0)
    ensures r.Success? ==> r.value.size == (if Get(query, "size").Undefined? then Finite(30.0) else Coerce(Get(query, "size"), number))
    ensures r.Success? ==> r.value.page == (if Get(query, "page").Undefined? then Finite(0.0) else Coerce(Get(query, "page"), number))
    ensures r.Failure? ==> ("size" in r.error <==> Size(Get(query, "size"), number).Failure?)
    ensures r.Failure? ==> ("page" in r.error <==> Page(Get(query, "page"), number).Failure?)
  {
    var size := Size(Get(query, "size"), number);
    var page := Page(Get(query, "page"), number);
    if size.Success? && page.Success? then Success(Pagination(size.value, page.value))
    else
      Failure(Failed(size.Success?, "size") + Failed(page.Success?, "page"))
  }

  /** With neither `size` nor `page` given, a page holds 30 items and is the first one. */
  lemma {:induction false} PaginationDefaults(query: Query, number: string -> Num)
    requires "size" !in query && "page" !in query
    ensures PaginationQuery(query, number) == Success(Pagination(Finite(30.0), Finite(0.0)))
  {
  }

  /** A size below 1 or a negative page, once coerced, makes the whole parse fail. */
  lemma {:induction false} PaginationRejectsBelowBounds(query: Query, number: string -> Num, r: real)
    requires ("size" in query && Coerce(query["size"], number) == Finite(r) && r < 1.0)
          || ("page" in query && Coerce(query["page"], number) == Finite(r) && r < 0.0)
    ensures PaginationQuery(query, number).Failure?
  {
  }

  /** The result of `ItemPaginationQuery`. */
  datatype ItemQuery = ItemQuery(
    size: Num,
    page: Num,
    name: Option<string>,
    authorId: Option<string>,
    tags: Option<seq<string>>,
    sort: string)

  /** `ItemPaginationQuery.parse`: the pagination fields, then `name`, `authorId`, `tags` and `sort`. */
  function ItemPaginationQuery(query: Query, number: string -> Num, sortTags: seq<string>, defaultSortTag: string)
    : (r: Result<ItemQuery, seq<string>>)
    ensures r.Success? ==> && r.value.tags == Tags(Get(query, "tags"))
                           && r.value.sort == Sort(Get(query, "sort"), sortTags, defaultSortTag)
    ensures r.Failure? ==> "tags" !in r.error && "sort" !in r.error
  {
    var size := Size(Get(query, "size"), number);
    var page := Page(Get(query, "page"), number);
    var name := OptionalString(Get(query, "name"));
    var authorId := OptionalString(Get(query, "authorId"));
    if size.Success? && page.Success? && name.Success? && authorId.Success? then
      Success(ItemQuery(size.value, page.value, name.value, authorId.value,
                        Tags(Get(query, "tags")), Sort(Get(query, "sort"), sortTags, defaultSortTag)))
    else
      Failure(Failed(size.Success?, "size") + Failed(page.Success?, "page")
              + Failed(name.Success?, "name") + Failed(authorId.Success?, "authorId"))
  }

  /**
   * `ItemPaginationQuery` is `PaginationQuery` plus the item fields: it
   * succeeds exactly when the pagination fields do and neither `name` nor
   * `authorId` is repeated, and then has the same size and page.
   */
  lemma {:induction false} ItemExtendsPagination(query: Query, number: string -> Num, sortTags: seq<string>, defaultSortTag: string)
    ensures var r := ItemPaginationQuery(query, number, sortTags, defaultSortTag);
            && (r.Success? <==> PaginationQuery(query, number).Success?
                                && !Get(query, "name").List? && !Get(query, "authorId").List?)
            && (r.Success? ==> PaginationQuery(query, number) == Success(Pagination(r.value.size, r.value.page))
                               && r.value.name == OptionalString(Get(query, "name")).value
                               && r.value.authorId == OptionalString(Get(query, "authorId")).value)
  {
  }

  /** The result of `TranslationPaginationQuery`. */
  datatype TranslationQuery = TranslationQuery(size: Num, page: Num, language: string, target: string, key: Option<string>)

  /** `TranslationPaginationQuery.parse`: the pagination fields, the source and target locales, and the key. */
  function TranslationPaginationQuery(query: Query, number: string -> Num, locales: seq<string>)
    : (r: Result<TranslationQuery, seq<string>>)
    ensures r.Success? ==> r.value.language in locales && r.value.target in locales
    ensures r.Success? ==> r.value.language == (if Get(query, "language").Text? then Get(query, "language").s else "en")
    ensures r.Success? ==> r.value.target == (if Get(query, "target").Text? then Get(query, "target").s else "vi")
    ensures r.Success? ==> r.value.key == (if Get(query, "key").Text? then Some(Get(query, "key").s) else None)
    ensures r.Success? ==> PaginationQuery(query, number) == Success(Pagination(r.value.size, r.value.page))
    ensures r.Success? <==> && PaginationQuery(query, number).Success?
                            && Locale(Get(query, "language"), locales, "en").Success?
                            && Locale(Get(query, "target"), locales, "vi").Success?
                            && !Get(query, "key").List?
  {
    var size := Size(Get(query, "size"), number);
    var page := Page(Get(query, "page"), number);
    var language := Locale(Get(query, "language"), locales, "en");
    var target := Locale(Get(query, "target"), locales, "vi");
    var key := OptionalString(Get(query, "key"));
    if size.Success? && page.Success? && language.Success? && target.Success? && key.Success? then
      Success(TranslationQuery(size.value, page.value, language.value, target.value, key.value))
    else
      Failure(Failed(size.Success?, "size") + Failed(page.Success?, "page")
              + Failed(language.Success?, "language") + Failed(target.Success?, "target")
              + Failed(key.Success?, "key"))
  }

  /**
   * Without `language` and `target`, a translation page translates from `en`
   * to `vi` (both supported locales); a language outside the locales is refused.
   */
  lemma {:induction false} TranslationDefaults(query: Query, number: string -> Num, locales: seq<string>)
    requires "en" in locales && "vi" in locales
    requires "language" !in query && "target" !in query && "key" !in query
    requires PaginationQuery(query, number).Success?
    ensures var r := TranslationPaginationQuery(query, number, locales);
            r.Success? && r.value.language == "en" && r.value.target == "vi" && r.value.key.None?
  {
  }

  /** A language or target given once but outside the locales makes the parse fail on that field. */
  lemma {:induction false} TranslationRejectsUnknownLocale(query: Query, number: string -> Num, locales: seq<string>, field: string)
    requires field == "language" || field == "target"
    requires field in query && query[field].Text? && query[field].s !in locales
    ensures var r := TranslationPaginationQuery(query, number, locales);
            r.Failure? && field in r.error
  {
  }
}
