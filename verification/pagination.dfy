/**
 * The pagination arithmetic the meeting and user listings share: `limit`
 * and `page` read from the query string with `parseInt(…) || default`
 * (`parseInt` without a radix, so `0x…` reads as hexadecimal),
 * `skip = (page - 1) * limit`, and `pages = Math.ceil(total / limit)`.
 */
module Pagination {
  import opened Wrappers
  import opened Numbers

  const DefaultLimit := 10
  const DefaultPage := 1

  /**
   * `parseInt(q) || d`: the number `parseInt` reads without a radix, or the
   * default when the query parameter is absent, has no leading digits (NaN),
   * or reads as 0.
   */
  function QueryNumber(q: Option<string>, d: int): (n: int)
    requires d != 0
    ensures n != 0
    ensures q.None? ==> n == d
    ensures q.Some? && ParseIntAuto(q.value).Some? && ParseIntAuto(q.value).value != 0 ==> n == ParseIntAuto(q.value).value
    ensures q.Some? && (ParseIntAuto(q.value).None? || ParseIntAuto(q.value) == Some(0)) ==> n == d
  {
    if q.None? then d
    else match ParseIntAuto(q.value)
      case None => d
      case Some(v) => if v == 0 then d else v
  }

  /** Every non-zero number the client prints is read back as itself; "0" falls back to the default. */
  lemma QueryNumberReadsPrinted(n: int, d: int)
    requires d != 0
    ensures QueryNumber(Some(IntToString(n)), d) == if n == 0 then d else n
  {
    ParseIntAutoToString(n);
  }

  /**
   * A `0x` or `0X` query value is read as hexadecimal: `?limit=0x10` asks
   * for 16 items, and a bare `0x` is NaN and falls back to the default.
   */
  lemma QueryNumberReadsHex(hs: string, d: int)
    requires d != 0 && |hs| > 0 && AllHexDigits(hs)
    ensures var v: int := HexValue(hs);
            && QueryNumber(Some("0x" + hs), d) == (if v == 0 then d else v)
            && QueryNumber(Some("0X" + hs), d) == (if v == 0 then d else v)
    ensures QueryNumber(Some("0x"), d) == d
  {
    ParseIntAutoHex(hs);
    ParseIntAutoBareHex('x');
    var v: int := HexValue(hs);
    QueryNumberOfRead("0x" + hs, v, d);
    QueryNumberOfRead("0X" + hs, v, d);
    assert ['0', 'x'] == "0x";
  }

  lemma QueryNumberOfRead(s: string, v: int, d: int)
    requires d != 0 && ParseIntAuto(s) == Some(v)
    ensures QueryNumber(Some(s), d) == if v == 0 then d else v
  {
  }

  /** How many items the pages before `page` hold. */
  function Skip(page: int, limit: int): int {
    (page - 1) * limit
  }

  /** From page 1 on, with a positive limit, the skip is never negative. */
  lemma SkipNonNegative(page: int, limit: int)
    requires page >= 1 && limit > 0
    ensures Skip(page, limit) >= 0
  {
  }

  /** `Math.ceil(total / limit)`: the number of pages needed for `total` items. */
  function Pages(total: nat, limit: int): (p: int)
    requires limit != 0
    ensures limit > 0 ==> (p - 1) * limit < total <= p * limit
    ensures limit > 0 && total == 0 ==> p == 0
    ensures limit > 0 && total > 0 ==> p >= 1
  {
    CeilDiv(total, limit)
  }

  /** The items on one page: at most `limit` of them, starting after `skip`. */
  function Window<T>(items: seq<T>, skip: nat, limit: nat): (w: seq<T>)
    ensures |w| <= limit
    ensures skip >= |items| ==> w == []
    ensures skip < |items| ==> |w| == (if skip + limit <= |items| then limit else |items| - skip)
    ensures forall j | 0 <= j < |w| :: w[j] == items[skip + j]
  {
    if skip >= |items| then []
    else if skip + limit <= |items| then items[skip..skip + limit]
    else items[skip..]
  }

  /**
   * With a positive limit, item `i` of `total` lies on exactly one page, the
   * page `i / limit + 1`, and that page is between 1 and `Pages(total, limit)`.
   */
  lemma ItemOnExactlyOnePage(total: nat, limit: int, i: nat)
    requires limit > 0 && i < total
    ensures var p := i / limit + 1;
            && 1 <= p <= Pages(total, limit)
            && Skip(p, limit) <= i < Skip(p, limit) + limit
    ensures forall q | Skip(q, limit) <= i < Skip(q, limit) + limit :: q == i / limit + 1
  {
    var p := i / limit + 1;
    var pages := Pages(total, limit);
    assert Skip(p, limit) == (i / limit) * limit;
    assert i == (i / limit) * limit + i % limit;
    if p > pages {
      MulMonotone(pages, p - 1, limit);
      assert false;
    }
    forall q | Skip(q, limit) <= i < Skip(q, limit) + limit
      ensures q == p
    {
      if q < p {
        MulMonotone(q, p - 1, limit);
      } else if q > p {
        MulMonotone(p, q - 1, limit);
      }
    }
  }

  lemma MulMonotone(a: int, b: int, c: int)
    requires a <= b && c > 0
    ensures a * c <= b * c
  {
  }

  /** Item `i` shows up on its page, at position `i` minus the skip. */
  lemma ItemInItsWindow<T>(items: seq<T>, limit: int, i: nat)
    requires limit > 0 && i < |items|
    ensures var p := i / limit + 1;
            var w := Window(items, Skip(p, limit), limit);
            0 <= i - Skip(p, limit) < |w| && w[i - Skip(p, limit)] == items[i]
  {
    ItemOnExactlyOnePage(|items|, limit, i);
  }
}
