/** The arithmetic of page numbers, limits and offsets, and the meta block of a response. */
module Pagination {
  import opened Wrappers
  import opened Arithmetic

  datatype Config = Config(defaultPageSize: Option<int>, maxPageSize: Option<int>)

  datatype Params = Params(page: int, limit: int, offset: int)

  datatype Meta = Meta(page: int, limit: int, total: int, totalPages: int, hasNext: bool, hasPrev: bool,
                       nextCursor: Option<int>)

  function Default<T>(x: Option<T>, d: T): T {
    if x.Some? then x.value else d
  }

  function Max(a: int, b: int): int { if a < b then b else a }

  function Min(a: int, b: int): int { if a < b then a else b }

  function ClampLimit(limit: int, config: Config): int {
    Min(limit, Default(config.maxPageSize, 100))
  }

  function NormalizePagePagination(page: Option<int>, limit: Option<int>, config: Config): Params {
    var p := Max(1, Default(page, 1));
    var l := ClampLimit(Max(1, Default(limit, Default(config.defaultPageSize, 20))), config);
    Params(p, l, (p - 1) * l)
  }

  /** The offset form; a configured maximum below 1 would make the limit 0 or negative. */
  function NormalizeOffsetPagination(limit: Option<int>, offset: Option<int>, config: Config): Params
    requires Default(config.maxPageSize, 100) >= 1
  {
    var l := ClampLimit(Max(1, Default(limit, Default(config.defaultPageSize, 20))), config);
    var o := Max(0, Default(offset, 0));
    Params(o / l + 1, l, o)
  }

  function CeilDiv(a: nat, b: nat): nat
    requires b > 0
  {
    (a + b - 1) / b
  }

  function BuildPaginationMeta(page: int, limit: int, total: int, nextCursor: Option<int>,
                               hasNextOverride: Option<bool>): Meta
    requires limit > 0
  {
    var totalPages := if total >= 0 then CeilDiv(total, limit) else 0;
    var hasNext :=
      if total >= 0 then page < totalPages
      else if hasNextOverride.Some? then hasNextOverride.value
      else nextCursor.Some?;
    Meta(page, limit, if total >= 0 then total else 0, totalPages, hasNext, page > 1, nextCursor)
  }

  /** The row at the offset lies on the page that is reported, whichever form was used. */
  lemma OffsetLiesOnPage(page: Option<int>, limit: Option<int>, offset: Option<int>, config: Config)
    requires Default(config.maxPageSize, 100) >= 1
    ensures var q := NormalizeOffsetPagination(limit, offset, config);
            1 <= q.limit <= Default(config.maxPageSize, 100) && q.offset >= 0
            && (q.page - 1) * q.limit <= q.offset < q.page * q.limit
    ensures var p := NormalizePagePagination(page, limit, config);
            && 1 <= p.limit <= Default(config.maxPageSize, 100) && p.page >= 1
            && NormalizeOffsetPagination(limit, Some(p.offset), config) == p
  {
    var q := NormalizeOffsetPagination(limit, offset, config);
    QuotientBounds(q.offset, q.limit);
    var p := NormalizePagePagination(page, limit, config);
    MultipleQuotient(p.page - 1, p.limit);
  }

  /** With a known total there is a next page exactly when a row follows this one. */
  lemma HasNextIffRowsRemain(page: nat, limit: nat, total: nat, nextCursor: Option<int>, hasNextOverride: Option<bool>)
    requires page >= 1 && limit >= 1
    ensures BuildPaginationMeta(page, limit, total, nextCursor, hasNextOverride).hasNext <==> page * limit < total
  {
    var pages := CeilDiv(total, limit);
    QuotientBounds(total + limit - 1, limit);
    assert (pages + 1) * limit == pages * limit + limit;
    if page < pages {
      Ordered(page + 1, pages, limit);
      assert (page + 1) * limit == page * limit + limit;
    } else {
      Ordered(pages, page, limit);
    }
  }

  // ---- The fields, one by one -------------------------------------------------------------

  /** What was asked for, else what is configured, else what is built in. */
  predicate IsAsked(x: Option<int>, configured: Option<int>, builtIn: int, asked: int) {
    || x == Some(asked)
    || (x.None? && configured == Some(asked))
    || (x.None? && configured.None? && asked == builtIn)
  }

  /** Both forms take the same limit: at least 1, and no more than the maximum. */
  lemma LimitFields(page: Option<int>, limit: Option<int>, offset: Option<int>, config: Config, asked: int, most: int)
    requires IsAsked(limit, config.defaultPageSize, 20, asked) && IsAsked(None, config.maxPageSize, 100, most)
    requires most >= 1
    ensures var p, q := NormalizePagePagination(page, limit, config), NormalizeOffsetPagination(limit, offset, config);
            && p.limit == q.limit
            && (1 <= asked <= most ==> p.limit == asked)
            && (asked > most ==> p.limit == most)
            && (asked < 1 ==> p.limit == 1)
  {
  }

  /** A page or an offset that is given and in range is kept; anything else means the beginning. */
  lemma PageAndOffsetFields(page: Option<int>, limit: Option<int>, offset: Option<int>, config: Config)
    requires config.maxPageSize.Some? ==> config.maxPageSize.value >= 1
    ensures var p := NormalizePagePagination(page, limit, config);
            && (page.Some? && page.value >= 1 ==> p.page == page.value)
            && (page.None? || page.value < 1 ==> p.page == 1)
            && p.offset == (p.page - 1) * p.limit
    ensures var q := NormalizeOffsetPagination(limit, offset, config);
            && (offset.Some? && offset.value >= 0 ==> q.offset == offset.value)
            && (offset.None? || offset.value < 0 ==> q.offset == 0)
            && (q.page - 1) * q.limit <= q.offset < q.page * q.limit
  {
    OffsetLiesOnPage(page, limit, offset, config);
  }

  /** The block repeats what it was given; the pages hold the total, and one page less would not. */
  lemma MetaFields(page: int, limit: int, total: int, nextCursor: Option<int>, hasNextOverride: Option<bool>)
    requires limit >= 1
    ensures var m := BuildPaginationMeta(page, limit, total, nextCursor, hasNextOverride);
            && m.page == page && m.limit == limit && m.nextCursor == nextCursor && (m.hasPrev <==> page >= 2)
            && (total >= 0 ==> m.total == total && (m.totalPages - 1) * limit < total <= m.totalPages * limit)
            && (total < 0 ==> m.total == 0 && m.totalPages == 0)
            && (total < 0 && hasNextOverride.Some? ==> m.hasNext == hasNextOverride.value)
            && (total < 0 && hasNextOverride.None? ==> m.hasNext == nextCursor.Some?)
  {
    if total >= 0 {
      var pages := CeilDiv(total, limit);
      QuotientBounds(total + limit - 1, limit);
      assert (pages + 1) * limit == pages * limit + limit;
      assert (pages - 1) * limit == pages * limit - limit;
    }
  }
}
