/**
  The paging parameter arithmetic of `TaggitService.getUserReposPaged`:
  apply the defaults, reject a page size and then a page number below one,
  turn the one-based page number into a zero-based row offset, and fall back
  to an empty page when the query throws.

  Kotlin's `Int` is a 32-bit two's-complement integer, so the offset product
  in the service wraps around. `PageWindowAsWritten` models that product as
  written, and `GetUserReposPaged` (the service as written) queries with its
  window. `PageWindow` computes the offset without wrap-around, and
  `GetUserReposPagedCorrected` queries with that window.
*/
module Paging {
  import opened Results

  /** A Kotlin `Int`. */
  type Int32 = x: int | -0x8000_0000 <= x < 0x8000_0000

  /** Kotlin's `Int` arithmetic: the mathematical value reduced into 32 bits. */
  function Wrap32(x: int): (r: Int32)
    ensures (r - x) % 0x1_0000_0000 == 0
    ensures -0x8000_0000 <= x < 0x8000_0000 ==> r == x
  {
    (x + 0x8000_0000) % 0x1_0000_0000 - 0x8000_0000
  }

  /** The configured defaults used when a parameter is absent. */
  datatype Defaults = Defaults(pageNm: Int32, pageSize: Int32)

  /** The two `IllegalArgumentException`s the validation throws: page size, then page number, below one. */
  datatype PagingError = PageSizeTooSmall | PageNumberTooSmall

  /** The row window handed to the repository query. */
  datatype Window = Window(offset: int, limit: int)

  /** One page of results: items, page number, page size and total count. */
  datatype PagedResponse<T> = PagedResponse(items: seq<T>, pageNm: int, pageSize: int, total: int)

  /** The page size and page number after defaulting, checked page size first. */
  function Validate(pageNm: Option<Int32>, pageSize: Option<Int32>, d: Defaults): (r: Result<(int, int), PagingError>)
    ensures r == Failure(PageSizeTooSmall) <==> pageSize.GetOr(d.pageSize) <= 0
    ensures r == Failure(PageNumberTooSmall) <==> pageSize.GetOr(d.pageSize) >= 1 && pageNm.GetOr(d.pageNm) <= 0
    ensures r.Success? ==> r.value == (pageNm.GetOr(d.pageNm), pageSize.GetOr(d.pageSize))
    ensures r.Success? ==> r.value.0 >= 1 && r.value.1 >= 1
  {
    var limit := pageSize.GetOr(d.pageSize);
    var nm := pageNm.GetOr(d.pageNm);
    if limit <= 0 then Failure(PageSizeTooSmall)
    else if nm <= 0 then Failure(PageNumberTooSmall)
    else Success((nm, limit))
  }

  /** Multiplying by a non-negative factor keeps order. */
  lemma MulMonotone(a: int, b: int, c: int)
    requires a >= 0 && b <= c
    ensures a * b <= a * c
  {
  }

  /** Bounds the product of two non-negative 32-bit values. */
  lemma ProductBound(a: int, b: int)
    requires 0 <= a < 0x8000_0000 && 0 <= b < 0x8000_0000
    ensures 0 <= a * b < 0x4000_0000_0000_0000
  {
    MulMonotone(a, 0, b);
    MulMonotone(a, b, 0x7FFF_FFFF);
    MulMonotone(0x7FFF_FFFF, a, 0x7FFF_FFFF);
  }

  /** Dividing an exact multiple recovers the factor. */
  lemma DivMulCancel(k: int, n: int)
    requires k >= 0 && n >= 1
    ensures (k * n) % n == 0 && (k * n) / n == k
  {
    var x := k * n;
    var q, r := x / n, x % n;
    assert (k - q) * n == r;
    if k - q >= 1 {
      MulMonotone(n, 1, k - q);
      assert false;
    } else if k - q <= -1 {
      MulMonotone(n, 1, q - k);
      assert false;
    }
  }

  /**
    The window for a page, with the offset computed without wrap-around.
    Its offset always fits a 64-bit `Long`.
  */
  function PageWindow(pageNm: Option<Int32>, pageSize: Option<Int32>, d: Defaults): (r: Result<Window, PagingError>)
    ensures r == Failure(PageSizeTooSmall) <==> pageSize.GetOr(d.pageSize) <= 0
    ensures r == Failure(PageNumberTooSmall) <==> pageSize.GetOr(d.pageSize) >= 1 && pageNm.GetOr(d.pageNm) <= 0
    ensures r.Success? ==> r.value.limit == pageSize.GetOr(d.pageSize) >= 1
    ensures r.Success? ==> 0 <= r.value.offset < 0x4000_0000_0000_0000
    ensures r.Success? ==> r.value.offset % r.value.limit == 0
    ensures r.Success? ==> r.value.offset / r.value.limit + 1 == pageNm.GetOr(d.pageNm)
    ensures r.Success? && pageNm.GetOr(d.pageNm) == 1 ==> r.value.offset == 0
  {
    match Validate(pageNm, pageSize, d)
    case Failure(e) => Failure(e)
    case Success((nm, limit)) =>
      ProductBound(nm - 1, limit);
      DivMulCancel(nm - 1, limit);
      Success(Window((nm - 1) * limit, limit))
  }

  /** The window as the service computes it: the offset product wraps around in 32 bits. */
  function PageWindowAsWritten(pageNm: Option<Int32>, pageSize: Option<Int32>, d: Defaults): (r: Result<Window, PagingError>)
    ensures r.Failure? <==> PageWindow(pageNm, pageSize, d).Failure?
    ensures r.Failure? ==> r == PageWindow(pageNm, pageSize, d)
    ensures r.Success? ==> r.value.limit == PageWindow(pageNm, pageSize, d).value.limit
    ensures r.Success? ==> r.value.offset == Wrap32(PageWindow(pageNm, pageSize, d).value.offset)
  {
    match Validate(pageNm, pageSize, d)
    case Failure(e) => Failure(e)
    case Success((nm, limit)) => Success(Window(Wrap32((nm - 1) * limit), limit))
  }

  /** Where the corrected offset fits a 32-bit `Int`, the service computes the same window. */
  lemma AsWrittenAgreesWithoutOverflow(pageNm: Option<Int32>, pageSize: Option<Int32>, d: Defaults)
    requires PageWindow(pageNm, pageSize, d).Success?
    requires PageWindow(pageNm, pageSize, d).value.offset < 0x8000_0000
    ensures PageWindowAsWritten(pageNm, pageSize, d) == PageWindow(pageNm, pageSize, d)
  {
  }

  /** A large page number makes the service's 32-bit offset negative. */
  lemma OffsetOverflowExample(d: Defaults)
    ensures PageWindow(Some(0x7FFF_FFFF), Some(2), d) == Success(Window(0xFFFF_FFFC, 2))
    ensures PageWindowAsWritten(Some(0x7FFF_FFFF), Some(2), d) == Success(Window(-4, 2))
  {
  }

  /**
    `getUserReposPaged` as written: validation errors propagate to the caller;
    the query gets the 32-bit offset; a query that throws yields an empty page
    carrying the default page number and size. `query(offset, limit)` is the
    repository query, `None` when it throws.
  */
  function GetUserReposPaged<T>(pageNm: Option<Int32>, pageSize: Option<Int32>, d: Defaults,
                                query: (int, int) -> Option<PagedResponse<T>>): (r: Result<PagedResponse<T>, PagingError>)
    ensures pageSize.GetOr(d.pageSize) <= 0 ==> r == Failure(PageSizeTooSmall)
    ensures pageSize.GetOr(d.pageSize) >= 1 && pageNm.GetOr(d.pageNm) <= 0 ==> r == Failure(PageNumberTooSmall)
    ensures r.Success? <==> pageSize.GetOr(d.pageSize) >= 1 && pageNm.GetOr(d.pageNm) >= 1
    ensures r.Success? ==>
      var limit := pageSize.GetOr(d.pageSize);
      var offset := Wrap32((pageNm.GetOr(d.pageNm) - 1) * limit);
      match query(offset, limit)
      case Some(page) => r.value == page
      case None => r.value == PagedResponse([], d.pageNm, d.pageSize, 0)
  {
    match PageWindowAsWritten(pageNm, pageSize, d)
    case Failure(e) => Failure(e)
    case Success(w) =>
      match query(w.offset, w.limit)
      case Some(page) => Success(page)
      case None => Success(PagedResponse([], d.pageNm, d.pageSize, 0))
  }

  /** `getUserReposPaged` with the offset computed without wrap-around: the query never sees a negative offset. */
  function GetUserReposPagedCorrected<T>(pageNm: Option<Int32>, pageSize: Option<Int32>, d: Defaults,
                                         query: (int, int) -> Option<PagedResponse<T>>): (r: Result<PagedResponse<T>, PagingError>)
    ensures pageSize.GetOr(d.pageSize) <= 0 ==> r == Failure(PageSizeTooSmall)
    ensures pageSize.GetOr(d.pageSize) >= 1 && pageNm.GetOr(d.pageNm) <= 0 ==> r == Failure(PageNumberTooSmall)
    ensures r.Success? <==> pageSize.GetOr(d.pageSize) >= 1 && pageNm.GetOr(d.pageNm) >= 1
    ensures r.Success? ==>
      var limit := pageSize.GetOr(d.pageSize);
      var offset := (pageNm.GetOr(d.pageNm) - 1) * limit;
      && 0 <= offset
      && match query(offset, limit)
         case Some(page) => r.value == page
         case None => r.value == PagedResponse([], d.pageNm, d.pageSize, 0)
  {
    match PageWindow(pageNm, pageSize, d)
    case Failure(e) => Failure(e)
    case Success(w) =>
      match query(w.offset, w.limit)
      case Some(page) => Success(page)
      case None => Success(PagedResponse([], d.pageNm, d.pageSize, 0))
  }
}
