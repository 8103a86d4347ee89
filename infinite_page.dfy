/**
 * The view choice of the infinite list (`InfinitePage`): which of the
 * error, loading, no-result and list views it shows for the state of its
 * page query, what each view holds, and when the initial data is handed to
 * the query.  React elements the caller passes in are opaque values of the
 * type parameter `N`; the items of the pages are of type `T`.
 */
module InfinitePage {
  import opened Wrappers

  /** The `skeleton` property: how many placeholders (a finite JavaScript number), and the element each one shows. */
  datatype Skeleton<N> = Skeleton(amount: real, item: N)

  /** `Array(n)` accepts `n` as a length: a whole number from 0 up to 2^32 - 1. */
  predicate ArrayLength(n: real)
  {
    0.0 <= n < 4294967296.0 && n.Floor as real == n
  }

  /** What the component puts on the page: a caller's element, one of its own defaults, or a skeleton placeholder. */
  datatype Piece<N> =
    | Given(node: N)
    | Spinner
    | NoResultDefault
    | EndDefault
    | Placeholder(key: nat, node: N)

  /** What rendering throws instead of returning a view. */
  datatype Thrown =
    | RangeError   // `Array(n)` with a length that is not a whole number below 2^32
    | TypeError    // `data.pages[0].length` with no first page

  /** The caller's properties this model reads (`className`, `reversed`, `queryFn`, ... do not affect the choice). */
  datatype Props<N> = Props(loader: Option<N>, noResult: Option<N>, end: Option<N>, skeleton: Option<Skeleton<N>>)

  /** The state of the page query: `data` is absent until a first answer, and its `pages` may be absent. */
  datatype QueryState<T> = QueryState(
    isError: bool,
    isLoading: bool,
    data: Option<Option<seq<seq<T>>>>,
    hasNextPage: bool,
    isFetching: bool)

  /** The view `InfinitePage` returns. */
  datatype View<T, N> =
    | ErrorView
    | LoadingView(shown: seq<Piece<N>>)
    | NoResultView(noResult: Piece<N>)
    | ListView(
        items: seq<T>,              // what `children` receives
        hasMore: bool,              // `hasMore` of the scroller
        loader: Option<Piece<N>>,   // `loader` of the scroller
        fallback: seq<Piece<N>>,    // the suspense fallback
        fetching: seq<Piece<N>>,    // what follows the items while a page is fetched
        end: Option<Piece<N>>)      // the end marker

  /**
   * The `loader` memo: the default spinner when the caller gave neither a
   * loader nor a skeleton, and nothing otherwise (a caller's own loader is
   * dropped).
   */
  function EffectiveLoader<N>(loader: Option<N>, skeleton: Option<Skeleton<N>>): (l: Option<Piece<N>>)
    ensures l.Some? <==> loader.None? && skeleton.None?
    ensures l.Some? ==> l.value == Spinner
  {
    if loader.None? && skeleton.None? then Some(Spinner) else None
  }

  /** The skeleton placeholders: `amount` copies of the skeleton item, each keyed by its position. */
  function Placeholders<N>(amount: nat, item: N): (ps: seq<Piece<N>>)
    ensures |ps| == amount
    ensures forall i :: 0 <= i < amount ==> ps[i] == Placeholder(i, item)
  {
    seq(amount, i requires 0 <= i < amount => Placeholder(i, item))
  }

  /**
   * The `loadingSkeleton` memo: the placeholders of the skeleton, none
   * without one; an amount `Array` does not accept as a length makes it throw.
   */
  function LoadingSkeleton<N>(skeleton: Option<Skeleton<N>>): (r: Result<seq<Piece<N>>, Thrown>)
    ensures r.Failure? <==> skeleton.Some? && !ArrayLength(skeleton.value.amount)
    ensures r.Success? && skeleton.None? ==> r.value == []
    ensures r.Success? && skeleton.Some? ==>
              && |r.value| as real == skeleton.value.amount
              && forall i :: 0 <= i < |r.value| ==> r.value[i] == Placeholder(i, skeleton.value.item)
  {
    if skeleton.None? then Success([])
    else if !ArrayLength(skeleton.value.amount) then Failure(RangeError)
    else Success(Placeholders(skeleton.value.amount.Floor, skeleton.value.item))
  }

  /** The items of all pages, the pages one after another. */
  function Flatten<T>(pages: seq<seq<T>>): seq<T>
  {
    if pages == [] then [] else pages[0] + Flatten(pages[1..])
  }

  /** The number of items over all pages. */
  function TotalSize<T>(pages: seq<seq<T>>): nat
  {
    if pages == [] then 0 else |pages[0]| + TotalSize(pages[1..])
  }

  /** Flattening keeps every item: its length is the sum of the page lengths. */
  lemma {:induction false} FlattenSize<T>(pages: seq<seq<T>>)
    ensures |Flatten(pages)| == TotalSize(pages)
  {
    if pages != [] {
      FlattenSize(pages[1..]);
    }
  }

  /** Flattening two runs of pages is flattening each and joining them: page order is kept. */
  lemma {:induction false} FlattenAppend<T>(a: seq<seq<T>>, b: seq<seq<T>>)
    ensures Flatten(a + b) == Flatten(a) + Flatten(b)
  {
    if a == [] {
      assert a + b == b;
    } else {
      assert (a + b)[1..] == a[1..] + b;
      FlattenAppend(a[1..], b);
    }
  }

  /** Item `j` of page `k` sits, unchanged, after all the items of the pages before it. */
  lemma {:induction false} FlattenPlaces<T>(pages: seq<seq<T>>, k: nat, j: nat)
    requires k < |pages| && j < |pages[k]|
    ensures TotalSize(pages[..k]) + j < |Flatten(pages)|
    ensures Flatten(pages)[TotalSize(pages[..k]) + j] == pages[k][j]
  {
    assert pages == pages[..k] + pages[k..];
    FlattenAppend(pages[..k], pages[k..]);
    FlattenSize(pages[..k]);
    assert pages[k..][1..] == pages[k + 1..];
  }

  /**
   * The view for the caller's properties and the query state.  The memos
   * run first, so a skeleton amount `Array` refuses throws whatever the state;
   * then the error view wins, then the loading view (still loading, or no
   * data yet), then the no-result view (no pages, or an empty first page),
   * and otherwise the list of all items.
   */
  function ViewOf<T, N>(props: Props<N>, q: QueryState<T>): (r: Result<View<T, N>, Thrown>)
    ensures LoadingSkeleton(props.skeleton).Failure? ==> r == Failure(RangeError)
    ensures LoadingSkeleton(props.skeleton).Success? && q.isError ==> r == Success(ErrorView)
    ensures r.Success? && r.value.LoadingView? <==>
              LoadingSkeleton(props.skeleton).Success? && !q.isError && (q.isLoading || q.data.None?)
    ensures r == Failure(TypeError) <==>
              && LoadingSkeleton(props.skeleton).Success? && !q.isError && !q.isLoading
              && q.data.Some? && q.data.value.Some? && q.data.value.value == []
  {
    var loader := EffectiveLoader(props.loader, props.skeleton);
    match LoadingSkeleton(props.skeleton)
    case Failure(e) => Failure(e)
    case Success(skeleton) =>
      if q.isError then Success(ErrorView)
      else if q.isLoading || q.data.None? then
        Success(LoadingView(if loader.Some? then [loader.value] else skeleton))
      else if q.data.value.None? then
        Success(NoResultView(if props.noResult.Some? then Given(props.noResult.value) else NoResultDefault))
      else if |q.data.value.value| == 0 then Failure(TypeError)
      else if |q.data.value.value[0]| == 0 then
        Success(NoResultView(if props.noResult.Some? then Given(props.noResult.value) else NoResultDefault))
      else
        var end := if props.end.Some? then Given(props.end.value) else EndDefault;
        Success(ListView(
          Flatten(q.data.value.value),
          q.hasNextPage,
          loader,
          skeleton,
          if q.isFetching && props.skeleton.Some? then skeleton else [],
          if !q.hasNextPage then Some(end) else None))
  }

  /**
   * Once data with pages has arrived, the first page alone decides between
   * the no-result view and the list: later pages are never looked at.
   */
  lemma {:induction false} NoResultByFirstPage<T, N>(props: Props<N>, q: QueryState<T>, first: seq<T>, later: seq<seq<T>>)
    requires LoadingSkeleton(props.skeleton).Success? && !q.isError && !q.isLoading
    requires q.data == Some(Some([first] + later))
    ensures var r := ViewOf(props, q);
            && r.Success?
            && (r.value.NoResultView? <==> first == [])
            && (r.value.ListView? <==> first != [])
  {
  }

  /**
   * The list view: `children` receive the items of all pages in page order,
   * the end marker shows exactly when there is no next page, and the
   * skeleton follows the items exactly while a page is fetched and a
   * skeleton was given.
   */
  lemma {:induction false} ListViewContents<T, N>(props: Props<N>, q: QueryState<T>)
    requires ViewOf(props, q).Success? && ViewOf(props, q).value.ListView?
    ensures var v := ViewOf(props, q).value;
            && q.data.Some? && q.data.value.Some?
            && v.items == Flatten(q.data.value.value)
            && |v.items| == TotalSize(q.data.value.value)
            && (v.end.Some? <==> !q.hasNextPage)
            && v.hasMore == q.hasNextPage
            && (v.fetching != [] <==> q.isFetching && props.skeleton.Some? && props.skeleton.value.amount > 0.0)
            && (q.isFetching && props.skeleton.Some? ==> |v.fetching| as real == props.skeleton.value.amount)
  {
    FlattenSize(q.data.value.value);
  }

  /**
   * The loading view shows the default spinner when the caller gave neither
   * a loader nor a skeleton, the skeleton's placeholders when one was given,
   * and nothing when only a loader was given.
   */
  lemma {:induction false} LoadingViewContents<T, N>(props: Props<N>, q: QueryState<T>)
    requires ViewOf(props, q).Success? && ViewOf(props, q).value.LoadingView?
    ensures var shown := ViewOf(props, q).value.shown;
            && (props.loader.None? && props.skeleton.None? ==> shown == [Spinner])
            && (props.skeleton.Some? ==> |shown| as real == props.skeleton.value.amount
                                         && forall i :: 0 <= i < |shown| ==> shown[i] == Placeholder(i, props.skeleton.value.item))
            && (props.loader.Some? && props.skeleton.None? ==> shown == [])
  {
  }

  /** As written, a caller's own loader is never shown: while loading without a skeleton the view is empty, and the scroller gets no loader. */
  lemma {:induction false} CallerLoaderDropped<T, N>(loader: N, q: QueryState<T>)
    requires !q.isError && (q.isLoading || q.data.None?)
    ensures ViewOf(Props(Some(loader), None, None, None), q) == Success(LoadingView([]))
    ensures EffectiveLoader(Some(loader), None) == None
  {
  }

  /** The loader as evidently intended: the caller's own loader when given, the default spinner when neither a loader nor a skeleton is. */
  function IntendedLoader<N>(loader: Option<N>, skeleton: Option<Skeleton<N>>): (l: Option<Piece<N>>)
    ensures loader.Some? ==> l == Some(Given(loader.value))
    ensures loader.None? ==> l == EffectiveLoader(loader, skeleton)
    ensures l.None? <==> loader.None? && skeleton.Some?
  {
    if loader.Some? then Some(Given(loader.value)) else EffectiveLoader(loader, skeleton)
  }

  /** As written, data whose `pages` list is empty makes rendering throw. */
  lemma {:induction false} EmptyPagesThrow<T, N>(props: Props<N>, q: QueryState<T>)
    requires LoadingSkeleton(props.skeleton).Success? && !q.isError && !q.isLoading
    requires q.data == Some(Some([]))
    ensures ViewOf(props, q) == Failure(TypeError)
  {
  }

  /** The no-result test as evidently intended: no pages, an empty list of pages, or an empty first page. */
  function NoResultChecked<T>(pages: Option<seq<seq<T>>>): (none: bool)
    ensures !none <==> pages.Some? && |pages.value| > 0 && |pages.value[0]| > 0
  {
    pages.None? || |pages.value| == 0 || |pages.value[0]| == 0
  }

  /** Wherever the written view does not throw on its data, it shows no result exactly when the intended test says so. */
  lemma {:induction false} NoResultCheckedAgrees<T, N>(props: Props<N>, q: QueryState<T>)
    requires LoadingSkeleton(props.skeleton).Success? && !q.isError && !q.isLoading && q.data.Some?
    requires q.data.value.None? || |q.data.value.value| > 0
    ensures ViewOf(props, q).Success?
    ensures ViewOf(props, q).value.NoResultView? <==> NoResultChecked(q.data.value)
  {
  }

  /**
   * The initial data handed to the page query: the caller's `initialData`
   * when the current parameters and `initialParams` serialise (`stringify`)
   * to the same text, and nothing otherwise.  Absent `initialParams`
   * serialise to `undefined`, which equals no text.
   */
  function InitialData<P, T>(params: P, initialParams: Option<P>, stringify: P -> string, initialData: Option<seq<T>>)
    : (d: Option<seq<T>>)
    ensures initialParams == Some(params) ==> d == initialData
    ensures d != initialData ==> d == None
    ensures initialParams.None? ==> d == None
  {
    if initialParams.Some? && stringify(initialParams.value) == stringify(params) then initialData else None
  }

  /**
   * With a serialisation that tells every two parameter values apart, the
   * initial data is handed over exactly for the parameters it was fetched for.
   */
  lemma {:induction false} InitialDataForOwnParams<P, T>(params: P, initialParams: Option<P>, stringify: P -> string,
                                                         initialData: Option<seq<T>>)
    requires forall a: P, b: P :: stringify(a) == stringify(b) ==> a == b
    ensures InitialData(params, initialParams, stringify, initialData)
            == if initialParams == Some(params) then initialData else None
  {
  }

  /**
   * Serialisation, not equality, decides: two parameter values that
   * serialise alike (objects that differ only in a field holding `undefined`,
   * which `JSON.stringify` drops) share the initial data of either.
   */
  lemma {:induction false} InitialDataBySerialisation<P, T>(params: P, other: P, stringify: P -> string, initialData: seq<T>)
    requires stringify(other) == stringify(params)
    ensures InitialData(params, Some(other), stringify, Some(initialData)) == Some(initialData)
  {
  }
}
