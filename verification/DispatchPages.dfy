// Paging through a list of dispatches (src/dispatch_server.rs, paginate and
// parse_page_token): offsets of 64 bits, and a token that says where the next
// page begins. Following the tokens gives the whole list, each item once.
module DispatchPages {
  import opened Wrappers
  import Decimal

  const USIZE_MAX := 0xFFFF_FFFF_FFFF_FFFF

  datatype Params = NoParams | PageSize(n: nat) | PageToken(token: string)

  datatype Page<T> = Page(items: seq<T>, next: Option<string>)

  datatype Answer<T> = Malformed | Ok(page: Page<T>)

  // ------------------------------------------------------------------- tokens

  // str::parse::<usize>: an optional plus sign, then digits, up to 64 bits.
  function ParseUsize(s: string): Option<nat> {
    var digits := if s != "" && s[0] == '+' then s[1..] else s;
    if digits == "" || !Decimal.AllDigits(digits) || Decimal.Value(digits) > USIZE_MAX then None
    else Some(Decimal.Value(digits))
  }

  // Where the first colon is, or the length for none.
  function Colon(s: string): (i: nat)
    ensures i <= |s|
  {
    if s == "" || s[0] == ':' then 0 else 1 + Colon(s[1..])
  }

  function ParseToken(token: string): Option<(nat, nat)> {
    var i := Colon(token);
    if i == |token| then None
    else
      var offset, size := ParseUsize(token[..i]), ParseUsize(token[i + 1..]);
      if offset.Some? && size.Some? then Some((offset.value, size.value)) else None
  }

  function TokenOf(end: nat, size: nat): string { Decimal.Digits(end) + ":" + Decimal.Digits(size) }

  lemma {:induction false} ColonAfter(digits: string, rest: string)
    requires Decimal.AllDigits(digits)
    ensures Colon(digits + ":" + rest) == |digits|
  {
    var s := digits + ":" + rest;
    if digits != "" {
      assert Decimal.IsDigit(digits[0]) && s[0] == digits[0];
      assert s[1..] == digits[1..] + ":" + rest;
      ColonAfter(digits[1..], rest);
    }
  }

  lemma DigitsParse(n: nat)
    requires n <= USIZE_MAX
    ensures ParseUsize(Decimal.Digits(n)) == Some(n)
  {
    var s := Decimal.Digits(n);
    assert Decimal.IsDigit(s[0]);
    Decimal.ValueOfDigits(n);
  }

  // A token reads back as what it was written from.
  lemma TokenReads(end: nat, size: nat)
    requires end <= USIZE_MAX && size <= USIZE_MAX
    ensures ParseToken(TokenOf(end, size)) == Some((end, size))
  {
    var a, b, token := Decimal.Digits(end), Decimal.Digits(size), TokenOf(end, size);
    ColonAfter(a, b);
    assert token[..|a|] == a && token[|a| + 1..] == b;
    DigitsParse(end);
    DigitsParse(size);
  }

  // -------------------------------------------------------------------- pages

  function Min(a: nat, b: nat): nat { if a <= b then a else b }

  function SaturatingAdd(a: nat, b: nat): nat { Min(a + b, USIZE_MAX) }

  function Slice<T>(items: seq<T>, offset: nat, size: nat): Page<T> {
    if size == 0 then Page(items, None)
    else
      var start, end := Min(offset, |items|), Min(SaturatingAdd(offset, size), |items|);
      if start <= end then Page(items[start..end], if end < |items| then Some(TokenOf(end, size)) else None)
      else Page([], None)
  }

  function Paginate<T>(items: seq<T>, params: Params): Answer<T> {
    match params
    case NoParams => Ok(Slice(items, 0, 0))
    case PageSize(n) => Ok(Slice(items, 0, n))
    case PageToken(token) =>
      var parsed := ParseToken(token);
      if parsed.None? then Malformed else Ok(Slice(items, parsed.value.0, parsed.value.1))
  }

  // No offset or size, however large, makes a range that runs backwards: a page is
  // always a run of the list, as long as asked for or to its end.
  lemma AnyPageIsARun<T>(items: seq<T>, offset: nat, size: nat)
    requires offset <= USIZE_MAX && size <= USIZE_MAX && |items| <= USIZE_MAX
    ensures var start, end := Min(offset, |items|), Min(SaturatingAdd(offset, size), |items|);
            && start <= end
            && (size > 0 ==> Slice(items, offset, size).items == items[start..end])
            && (size > 0 && offset <= |items| ==> end - start == Min(size, |items| - offset))
  {
  }

  // Without parameters, and for size 0, the answer is the whole list.
  lemma UnpagedIsAll<T>(items: seq<T>)
    ensures Paginate(items, NoParams) == Paginate(items, PageSize(0)) == Ok(Page(items, None))
  {
  }

  // A page is what its size says from the start of the list on, a token's from the
  // offset in it; whichever is read on, the page after begins where it ends.
  lemma PageIs<T>(items: seq<T>, params: Params, offset: nat, size: nat)
    requires 0 < size <= USIZE_MAX && offset <= USIZE_MAX && |items| <= USIZE_MAX
    requires (params == PageSize(size) && offset == 0) || params == PageToken(TokenOf(offset, size))
    ensures var answer, end := Paginate(items, params), Min(offset + size, |items|);
            && answer.Ok? && answer.page.items == (if offset <= |items| then items[offset..end] else [])
            && answer.page.next == if offset + size < |items| then Some(TokenOf(offset + size, size)) else None
  {
    TokenReads(offset, size);
    AnyPageIsARun(items, offset, size);
  }

  // How far `pages` pages of `size` reach.
  function Reach(pages: nat, size: nat): nat { if pages == 0 then 0 else Reach(pages - 1, size) + size }

  // Where the page at `offset` ends; size 0 stands for the whole list.
  function PageEnd(count: nat, offset: nat, size: nat): nat {
    if size == 0 then count else Min(offset + size, count)
  }

  // The page at `offset` and all before it.
  ghost predicate ReadUpTo<T>(items: seq<T>, offset: nat, size: nat, page: Page<T>, all: seq<T>) {
    && offset <= |items| && (offset < |items| || offset == 0)
    && page == Slice(items, offset, size) && all == items[..PageEnd(|items|, offset, size)]
  }

  lemma ReadNext<T>(items: seq<T>, offset: nat, size: nat, page: Page<T>, all: seq<T>, next: nat)
    requires size <= USIZE_MAX && |items| <= USIZE_MAX && next == offset + size
    requires ReadUpTo(items, offset, size, page, all) && page.next.Some?
    ensures 0 < size && next < |items| && page.next.value == TokenOf(next, size)
    ensures ReadUpTo(items, next, size, Slice(items, next, size), all + Slice(items, next, size).items)
  {
    AnyPageIsARun(items, offset, size);
    AnyPageIsARun(items, next, size);
  }

  // One more request, with the token of the page before.
  method NextPage<T>(items: seq<T>, size: nat, page: Page<T>, all: seq<T>, ghost offset: nat, ghost next: nat)
    returns (page': Page<T>, all': seq<T>)
    requires size <= USIZE_MAX && |items| <= USIZE_MAX && next == offset + size
    requires ReadUpTo(items, offset, size, page, all) && page.next.Some?
    ensures 0 < size && next < |items| && ReadUpTo(items, next, size, page', all')
  {
    ReadNext(items, offset, size, page, all, next);
    TokenReads(next, size);
    var answer := Paginate(items, PageToken(page.next.value));
    page' := answer.page;
    all' := all + page'.items;
  }

  // A client that asks for pages and echoes each token it is given ends, with the
  // whole list in order, nothing twice, and no more pages than it takes: one for
  // size 0, which is answered with everything.
  method FollowTokens<T>(items: seq<T>, size: nat) returns (all: seq<T>, pages: nat)
    requires size <= USIZE_MAX && |items| <= USIZE_MAX
    ensures all == items && pages > 0
    ensures pages == 1 || (size > 0 && Reach(pages - 1, size) < |items|)
    ensures size > 0 ==> |items| <= Reach(pages, size)
  {
    var page := Paginate(items, PageSize(size)).page;
    ghost var offset, next := 0, size;
    all, pages := page.items, 1;
    while page.next.Some?
      invariant ReadUpTo(items, offset, size, page, all) && pages > 0
      invariant offset == Reach(pages - 1, size) && next == offset + size
      invariant pages == 1 || (size > 0 && offset < |items|)
      decreases |items| - offset
    {
      page, all := NextPage(items, size, page, all, offset, next);
      offset, next := next, next + size;
      pages := pages + 1;
    }
    LastPage(items, offset, size, page, all);
  }

  lemma LastPage<T>(items: seq<T>, offset: nat, size: nat, page: Page<T>, all: seq<T>)
    requires size <= USIZE_MAX && |items| <= USIZE_MAX
    requires ReadUpTo(items, offset, size, page, all) && page.next.None?
    ensures all == items && (size > 0 ==> |items| <= offset + size)
  {
    AnyPageIsARun(items, offset, size);
  }

  // A token is refused exactly when it is not two numbers around its first colon.
  lemma MalformedWhen<T>(items: seq<T>, token: string)
    ensures Paginate(items, PageToken(token)).Malformed? <==>
      !exists i :: 0 <= i < |token| && token[i] == ':' && ':' !in token[..i]
                && ParseUsize(token[..i]).Some? && ParseUsize(token[i + 1..]).Some?
  {
    ColonIsFirst(token);
  }

  lemma {:induction false} ColonIsFirst(s: string)
    ensures ':' !in s[..Colon(s)] && (Colon(s) < |s| ==> s[Colon(s)] == ':')
  {
    if s != "" && s[0] != ':' {
      ColonIsFirst(s[1..]);
      assert s[..Colon(s)] == [s[0]] + s[1..][..Colon(s[1..])];
    }
  }
}
