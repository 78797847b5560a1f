/** The product helpers of the admin service (`WebAdminAPI`): the local
    product list with its filters and pages, the normalisation of the
    marketplace's item status, and the bounded page loop that syncs every
    listed item. Configuration files, the marketplace API and the per-item
    sync step are inputs. */
module AdminProducts {
  import opened Common

  // ---------------------------------------------------------------------
  // `get_products`
  // ---------------------------------------------------------------------

  /** One `*_config.json` file: its base name, whether it parsed (JSON and
      price conversion both succeeded), and the fields that matter here
      (absent keys as `None`). */
  datatype ProductFile = ProductFile(
    name: string,
    readable: bool,
    itemId: Option<string>,
    title: Option<string>,
    category: Option<string>,
    promptsConfigured: bool)

  datatype Product = Product(id: string, itemId: string, title: string, category: string, status: string)

  const Untitled: string := "未命名商品"
  const Uncategorised: string := "未分类"

  function OrElse(v: Option<string>, d: string): string {
    if v.Some? then v.value else d
  }

  /** The product row built from a file. */
  function ProductOf(f: ProductFile): (p: Product)
    ensures p.status == "active" || p.status == "draft"
    ensures p.status == "active" <==> f.promptsConfigured
    ensures f.title.None? ==> p.title == Untitled
    ensures f.category.None? ==> p.category == Uncategorised
    ensures f.itemId.None? ==> p.itemId == p.id
    ensures f.title.Some? ==> p.title == f.title.value
    ensures f.category.Some? ==> p.category == f.category.value
    ensures f.itemId.Some? ==> p.itemId == f.itemId.value
    ensures p.id == Replace(f.name, "_config.json", "")
  {
    var id := Replace(f.name, "_config.json", "");
    Product(id, OrElse(f.itemId, id), OrElse(f.title, Untitled), OrElse(f.category, Uncategorised),
            if f.promptsConfigured then "active" else "draft")
  }

  /** The three filters; an empty one lets everything through. */
  predicate Keep(p: Product, keyword: string, category: string, status: string) {
    (keyword == "" || Contains(AsciiLower(p.title), AsciiLower(keyword))) &&
    (category == "" || p.category == category) &&
    (status == "" || p.status == status)
  }

  /** The rows of the readable files that pass the filters, in file order. */
  function Matching(files: seq<ProductFile>, keyword: string, category: string, status: string): seq<Product> {
    if files == [] then []
    else
      var init := Matching(files[..|files| - 1], keyword, category, status);
      var f := files[|files| - 1];
      if f.readable && Keep(ProductOf(f), keyword, category, status) then init + [ProductOf(f)] else init
  }

  /** The requested page: `[(page - 1) * pageSize, (page - 1) * pageSize + pageSize)`
      with Python's slice rules. */
  function PageOf<T>(s: seq<T>, page: int, pageSize: int): seq<T> {
    PySlice(s, (page - 1) * pageSize, (page - 1) * pageSize + pageSize)
  }

  datatype ProductPage = ProductPage(list: seq<Product>, total: nat)

  /** Build the filtered rows file by file, then count and cut the page. */
  method GetProducts(files: seq<ProductFile>, page: int, pageSize: int,
                     keyword: string, category: string, status: string)
    returns (r: ProductPage)
    ensures r.list == PageOf(Matching(files, keyword, category, status), page, pageSize)
    ensures r.total == |Matching(files, keyword, category, status)|
  {
    var products: seq<Product> := [];
    var i := 0;
    while i < |files|
      invariant 0 <= i <= |files|
      invariant products == Matching(files[..i], keyword, category, status)
    {
      assert files[..i + 1][..i] == files[..i];
      var f := files[i];
      if f.readable {
        var p := ProductOf(f);
        if Keep(p, keyword, category, status) {
          products := products + [p];
        }
      }
      i := i + 1;
    }
    assert files[..|files|] == files;
    var total := |products|;
    var start := (page - 1) * pageSize;
    var end := start + pageSize;
    r := ProductPage(PySlice(products, start, end), total);
  }

  /** `f` is a readable file whose row is `p` and `p` passes the filters. */
  predicate Shows(f: ProductFile, p: Product, keyword: string, category: string, status: string) {
    f.readable && ProductOf(f) == p && Keep(p, keyword, category, status)
  }

  /** The filtered rows are exactly the rows of readable files that pass
      the filters. */
  lemma MatchingCorrect(files: seq<ProductFile>, keyword: string, category: string, status: string)
    ensures forall p :: p in Matching(files, keyword, category, status) <==>
              exists i :: 0 <= i < |files| && Shows(files[i], p, keyword, category, status)
  {
    forall p ensures p in Matching(files, keyword, category, status) <==>
                     exists i :: 0 <= i < |files| && Shows(files[i], p, keyword, category, status)
    {
      MatchingMember(files, keyword, category, status, p);
    }
  }

  lemma MatchingMember(files: seq<ProductFile>, keyword: string, category: string, status: string, p: Product)
    ensures p in Matching(files, keyword, category, status) <==>
            exists i :: 0 <= i < |files| && Shows(files[i], p, keyword, category, status)
  {
    var sel := (f: ProductFile) => f.readable && Keep(ProductOf(f), keyword, category, status);
    MatchingRows(files, keyword, category, status);
    RowsMember(files, sel, ProductOf, p);
  }

  /** The images under `row` of the elements `sel` accepts, in order:
      `Matching` with the filter and the row builder as parameters. */
  function Rows<A, B>(xs: seq<A>, sel: A -> bool, row: A -> B): seq<B> {
    if xs == [] then []
    else
      var init := Rows(xs[..|xs| - 1], sel, row);
      var x := xs[|xs| - 1];
      if sel(x) then init + [row(x)] else init
  }

  lemma {:induction false} MatchingRows(files: seq<ProductFile>, keyword: string, category: string, status: string)
    ensures Matching(files, keyword, category, status) ==
            Rows(files, (f: ProductFile) => f.readable && Keep(ProductOf(f), keyword, category, status), ProductOf)
    decreases |files|
  {
    if files != [] {
      MatchingRows(files[..|files| - 1], keyword, category, status);
    }
  }

  lemma {:induction false} RowsMember<A, B>(xs: seq<A>, sel: A -> bool, row: A -> B, y: B)
    ensures y in Rows(xs, sel, row) <==> exists i :: 0 <= i < |xs| && sel(xs[i]) && row(xs[i]) == y
    decreases |xs|
  {
    if xs != [] {
      var init := xs[..|xs| - 1];
      var n := |xs| - 1;
      var x := xs[n];
      var prior := Rows(init, sel, row);
      RowsMember(init, sel, row, y);
      assert Rows(xs, sel, row) == if sel(x) then prior + [row(x)] else prior;
      if y in Rows(xs, sel, row) {
        if y in prior {
          var i :| 0 <= i < |init| && sel(init[i]) && row(init[i]) == y;
          assert xs[i] == init[i];
        } else {
          assert sel(xs[n]) && row(xs[n]) == y;
        }
      }
      if exists i :: 0 <= i < |xs| && sel(xs[i]) && row(xs[i]) == y {
        var i :| 0 <= i < |xs| && sel(xs[i]) && row(xs[i]) == y;
        if i < n {
          assert init[i] == xs[i];
          assert y in prior;
        }
      }
    }
  }

  /** A status filter other than "active" or "draft" leaves no rows. */
  lemma {:induction false} UnknownStatusEmpty(files: seq<ProductFile>, keyword: string, category: string, status: string)
    requires status != "" && status != "active" && status != "draft"
    ensures Matching(files, keyword, category, status) == []
    decreases |files|
  {
    if files != [] {
      UnknownStatusEmpty(files[..|files| - 1], keyword, category, status);
    }
  }

  /** With every filter empty, each readable file gives a row. */
  lemma NoFilterKeepsReadable(files: seq<ProductFile>)
    ensures |Matching(files, "", "", "")| == Count(files, (f: ProductFile) => f.readable)
  {
    var sel := (f: ProductFile) => f.readable && Keep(ProductOf(f), "", "", "");
    forall f: ProductFile ensures sel(f) == f.readable {
      assert Keep(ProductOf(f), "", "", "");
    }
    MatchingRows(files, "", "", "");
    RowsCount(files, sel, (f: ProductFile) => f.readable, ProductOf);
  }

  /** A filter that accepts the same files as `q` gives one row per file
      `q` accepts. */
  lemma {:induction false} RowsCount<A, B>(xs: seq<A>, sel: A -> bool, q: A -> bool, row: A -> B)
    requires forall x :: sel(x) == q(x)
    ensures |Rows(xs, sel, row)| == Count(xs, q)
    decreases |xs|
  {
    if xs != [] {
      var init := xs[..|xs| - 1];
      var x := xs[|xs| - 1];
      RowsCount(init, sel, q, row);
      assert xs == init + [x];
      FilterSnoc(init, x, q);
    }
  }

  /** For a positive page number and a non-negative size, a page holds the
      rows from `(page - 1) * pageSize` on, at most `pageSize` of them. */
  lemma PageWindow<T>(s: seq<T>, page: int, pageSize: int)
    requires page >= 1 && pageSize >= 0
    ensures var start := (page - 1) * pageSize;
            PageOf(s, page, pageSize) ==
              if start >= |s| then []
              else s[start..if start + pageSize <= |s| then start + pageSize else |s|]
    ensures |PageOf(s, page, pageSize)| <= pageSize
  {
    var start := (page - 1) * pageSize;
    var stop := start + pageSize;
    NonNegativeProduct(page - 1, pageSize);
    assert PageOf(s, page, pageSize) == PySlice(s, start, stop);
    assert SliceBound(start, |s|) == if start >= |s| then |s| else start;
    assert SliceBound(stop, |s|) == if stop <= |s| then stop else |s|;
  }

  lemma NonNegativeProduct(a: int, b: int)
    requires a >= 0 && b >= 0
    ensures a * b >= 0
  {
  }

  /** Every row is on exactly the page its index says: row `i` is entry
      `i % pageSize` of page `i / pageSize + 1`. */
  lemma RowOnItsPage<T>(s: seq<T>, pageSize: int, i: int)
    requires pageSize > 0 && 0 <= i < |s|
    ensures var page := i / pageSize + 1;
            i % pageSize < |PageOf(s, page, pageSize)| &&
            PageOf(s, page, pageSize)[i % pageSize] == s[i]
  {
    var page := i / pageSize + 1;
    var start := (page - 1) * pageSize;
    assert start == i / pageSize * pageSize;
    assert start + i % pageSize == i;
    assert page >= 1;
    PageWindow(s, page, pageSize);
  }

  /** Page 0 (and any page whose end falls at or before 0) is empty. */
  lemma PageZeroEmpty<T>(s: seq<T>, pageSize: int)
    requires pageSize >= 0
    ensures PageOf(s, 0, pageSize) == []
  {
  }

  // ---------------------------------------------------------------------
  // Status normalisation in `get_xianyu_items`
  // ---------------------------------------------------------------------

  /** Python truthiness of a JSON value (absent counts as false). */
  predicate Truthy(v: Option<Scalar>) {
    v.Some? && match v.value
               case SStr(s) => s != ""
               case SInt(i) => i != 0
  }

  /** `status_map` */
  function StatusCode(key: string): Option<string> {
    if key == "0" then Some("ON_SALE")
    else if key == "1" then Some("SOLD_OUT")
    else if key == "2" then Some("OFFLINE")
    else if key == "on_sale" then Some("ON_SALE")
    else if key == "sold_out" then Some("SOLD_OUT")
    else None
  }

  /** The status shown for an item, from its `status` or else its
      `itemStatus` field: a known code is mapped (compared in lower case),
      anything else is kept, and a false value becomes `ON_SALE`. */
  function NormaliseStatus(status: Option<Scalar>, itemStatus: Option<Scalar>): (r: Scalar)
    ensures Truthy(Some(r))
  {
    var v := if Truthy(status) then status.value else if Truthy(itemStatus) then itemStatus.value else SStr("");
    var m := StatusCode(AsciiLower(ScalarText(v)));
    var w := if m.Some? then SStr(m.value) else v;
    if Truthy(Some(w)) then w else SStr("ON_SALE")
  }

  lemma LowerCanonical()
    ensures AsciiLower("ON_SALE") == "on_sale"
    ensures AsciiLower("SOLD_OUT") == "sold_out"
    ensures AsciiLower("OFFLINE") == "offline"
  {
  }

  /** A true status whose text, in lower case, is a key of the table is
      replaced by the table's name: `0` and `on_sale` give `ON_SALE`, `1` and
      `sold_out` give `SOLD_OUT`, `2` gives `OFFLINE`. */
  lemma StatusCodes(v: Scalar, itemStatus: Option<Scalar>)
    requires Truthy(Some(v))
    ensures var k := AsciiLower(ScalarText(v));
            var r := NormaliseStatus(Some(v), itemStatus);
            (k == "0" || k == "on_sale" ==> r == SStr("ON_SALE")) &&
            (k == "1" || k == "sold_out" ==> r == SStr("SOLD_OUT")) &&
            (k == "2" ==> r == SStr("OFFLINE"))
  {
  }

  /** Numbers are matched by their decimal text: 1 and 2 map like the
      strings "1" and "2", and every other non-zero number is kept. */
  lemma StatusNumbers(n: int, itemStatus: Option<Scalar>)
    requires n != 0
    ensures NormaliseStatus(Some(SInt(n)), itemStatus) ==
              if n == 1 then SStr("SOLD_OUT") else if n == 2 then SStr("OFFLINE") else SInt(n)
  {
    var t := IntToString(n);
    var k := AsciiLower(t);
    if n < 0 {
      assert k[0] == t[0] == '-';
    } else {
      assert k == t;
      assert "0" == [DigitChar(0)] && "1" == [DigitChar(1)] && "2" == [DigitChar(2)];
      NatToStringDigit(n, 0);
      NatToStringDigit(n, 1);
      NatToStringDigit(n, 2);
      assert '0' <= k[0] <= '9';
    }
  }

  /** A true status whose lower-case text is not a key of the table is kept
      exactly as it is (so the upper-case names map to themselves), and the
      lower-case comparison ignores the case of the input. */
  lemma StatusNames(v: Scalar, itemStatus: Option<Scalar>)
    requires Truthy(Some(v))
    ensures var k := AsciiLower(ScalarText(v));
            k != "0" && k != "1" && k != "2" && k != "on_sale" && k != "sold_out" ==>
              NormaliseStatus(Some(v), itemStatus) == v
    ensures NormaliseStatus(Some(SStr("Sold_Out")), itemStatus) == SStr("SOLD_OUT")
    ensures NormaliseStatus(Some(SStr("OFFLINE")), itemStatus) == SStr("OFFLINE")
    ensures NormaliseStatus(Some(SStr("ON_SALE")), itemStatus) == SStr("ON_SALE")
  {
    LowerCanonical();
    assert AsciiLower("Sold_Out") == "sold_out";
  }

  /** A false (or absent) status defers to `itemStatus`; when both are
      false the result is `ON_SALE`. */
  lemma StatusFallsThrough(status: Option<Scalar>, itemStatus: Option<Scalar>)
    requires !Truthy(status)
    ensures NormaliseStatus(status, itemStatus) == NormaliseStatus(itemStatus, None)
    ensures !Truthy(itemStatus) ==> NormaliseStatus(status, itemStatus) == SStr("ON_SALE")
  {
    assert AsciiLower("") == "";
  }

  /** A numeric 0 is false, so it falls through to `itemStatus`. */
  lemma ZeroFallsThrough(itemStatus: Option<Scalar>)
    ensures NormaliseStatus(Some(SInt(0)), itemStatus) == NormaliseStatus(None, itemStatus)
  {
  }

  /** Normalising a normalised status changes nothing. */
  lemma NormaliseIdempotent(status: Option<Scalar>, itemStatus: Option<Scalar>)
    ensures var r := NormaliseStatus(status, itemStatus);
            NormaliseStatus(Some(r), None) == r
  {
    LowerCanonical();
    var v := if Truthy(status) then status.value else if Truthy(itemStatus) then itemStatus.value else SStr("");
    var m := StatusCode(AsciiLower(ScalarText(v)));
    if m.None? && Truthy(Some(v)) {
      assert NormaliseStatus(status, itemStatus) == v;
    }
  }

  // ---------------------------------------------------------------------
  // The `syncAll` loop of `sync_from_xianyu`
  // ---------------------------------------------------------------------

  const SyncPageSize: nat := 50
  const SyncMaxPages: nat := 10

  /** An item of a listed page: its id (empty when none of `itemId`, `id`,
      `item_id` is set) and whether syncing it succeeded. */
  datatype Listed = Listed(id: string, ok: bool)

  /** The reply for one page: an error object, or its items (empty when the
      reply has no data or no item list). */
  datatype PageReply = PageError | PageItems(items: seq<Listed>)

  datatype SyncResult = SyncResult(synced: seq<string>, failed: seq<string>, fetched: nat)

  function Plus(a: SyncResult, b: SyncResult): SyncResult {
    SyncResult(a.synced + b.synced, a.failed + b.failed, a.fetched + b.fetched)
  }

  /** The reply to the request for page `page`; pages beyond the given
      replies answer with an error. */
  function ReplyFor(replies: seq<PageReply>, page: nat): PageReply {
    if 1 <= page <= |replies| then replies[page - 1] else PageError
  }

  function SyncedOf(items: seq<Listed>): seq<string> {
    if items == [] then []
    else (if items[0].id != "" && items[0].ok then [items[0].id] else []) + SyncedOf(items[1..])
  }

  function FailedOf(items: seq<Listed>): seq<string> {
    if items == [] then []
    else (if items[0].id != "" && !items[0].ok then [items[0].id] else []) + FailedOf(items[1..])
  }

  /** Pages from `page` on: an error or an empty page ends the loop; a page
      shorter than the page size, or reaching the page limit, ends it after
      that page's items. */
  function SyncFrom(replies: seq<PageReply>, page: nat): SyncResult
    requires 1 <= page <= SyncMaxPages
    decreases SyncMaxPages - page
  {
    match ReplyFor(replies, page)
    case PageError => SyncResult([], [], 1)
    case PageItems(items) =>
      if items == [] then SyncResult([], [], 1)
      else
        var here := SyncResult(SyncedOf(items), FailedOf(items), 1);
        if |items| < SyncPageSize || page + 1 > SyncMaxPages then here
        else Plus(here, SyncFrom(replies, page + 1))
  }

  /** Walk one page of items, sorting the ids into synced and failed. */
  method SyncPage(items: seq<Listed>) returns (synced: seq<string>, failed: seq<string>)
    ensures synced == SyncedOf(items) && failed == FailedOf(items)
  {
    synced, failed := [], [];
    var i := |items|;
    while i > 0
      invariant 0 <= i <= |items|
      invariant synced == SyncedOf(items[i..]) && failed == FailedOf(items[i..])
    {
      i := i - 1;
      assert items[i..][1..] == items[i + 1..];
      var it := items[i];
      if it.id != "" {
        if it.ok {
          synced := [it.id] + synced;
        } else {
          failed := [it.id] + failed;
        }
      }
    }
  }

  /** Fetch page after page until a stop condition holds. */
  method SyncAll(replies: seq<PageReply>) returns (r: SyncResult)
    ensures r == SyncFrom(replies, 1)
  {
    var page: nat := 1;
    r := SyncResult([], [], 0);
    var done := false;
    while !done
      invariant 1 <= page <= SyncMaxPages
      invariant done ==> r == SyncFrom(replies, 1)
      invariant !done ==> SyncFrom(replies, 1) == Plus(r, SyncFrom(replies, page))
      decreases SyncMaxPages - page, if done then 0 else 1
    {
      var reply := ReplyFor(replies, page);
      if reply.PageError? || reply.items == [] {
        r := Plus(r, SyncResult([], [], 1));
        done := true;
      } else {
        var s, f := SyncPage(reply.items);
        var here := SyncResult(s, f, 1);
        if |reply.items| < SyncPageSize || page + 1 > SyncMaxPages {
          r := Plus(r, here);
          done := true;
        } else {
          PlusAssoc(r, here, SyncFrom(replies, page + 1));
          r := Plus(r, here);
          page := page + 1;
        }
      }
    }
  }

  lemma PlusAssoc(a: SyncResult, b: SyncResult, c: SyncResult)
    ensures Plus(Plus(a, b), c) == Plus(a, Plus(b, c))
  {
  }

  /** The loop fetches at least one and at most ten pages (counting the
      page that ends it); a first page shorter than the page size is the
      only one fetched. */
  lemma {:induction false} SyncBounded(replies: seq<PageReply>, page: nat)
    requires 1 <= page <= SyncMaxPages
    ensures 1 <= SyncFrom(replies, page).fetched <= SyncMaxPages + 1 - page
    ensures ReplyFor(replies, page).PageItems? && |ReplyFor(replies, page).items| < SyncPageSize ==>
              SyncFrom(replies, page).fetched == 1
    ensures ReplyFor(replies, page).PageError? || ReplyFor(replies, page).items == [] ==>
              SyncFrom(replies, page) == SyncResult([], [], 1)
    decreases SyncMaxPages - page
  {
    var reply := ReplyFor(replies, page);
    if reply.PageItems? && reply.items != [] && |reply.items| >= SyncPageSize && page + 1 <= SyncMaxPages {
      SyncBounded(replies, page + 1);
    }
  }

  lemma {:induction false} SyncedOfMembers(items: seq<Listed>)
    ensures forall x :: x in SyncedOf(items) <==> x != "" && Listed(x, true) in items
    ensures forall x :: x in FailedOf(items) <==> x != "" && Listed(x, false) in items
    decreases |items|
  {
    if items != [] {
      SyncedOfMembers(items[1..]);
      assert forall y :: y in items <==> y == items[0] || y in items[1..];
    }
  }

  /** Every id reported as synced (failed) belongs to an item of a fetched
      page whose sync succeeded (failed). */
  lemma {:induction false} SyncedFromFetched(replies: seq<PageReply>, page: nat)
    requires 1 <= page <= SyncMaxPages
    ensures var r := SyncFrom(replies, page);
            forall x :: x in r.synced ==>
              exists p :: page <= p < page + r.fetched && ReplyFor(replies, p).PageItems? &&
                          Listed(x, true) in ReplyFor(replies, p).items
    ensures var r := SyncFrom(replies, page);
            forall x :: x in r.failed ==>
              exists p :: page <= p < page + r.fetched && ReplyFor(replies, p).PageItems? &&
                          Listed(x, false) in ReplyFor(replies, p).items
    decreases SyncMaxPages - page
  {
    var reply := ReplyFor(replies, page);
    if reply.PageItems? && reply.items != [] {
      SyncedOfMembers(reply.items);
      if |reply.items| >= SyncPageSize && page + 1 <= SyncMaxPages {
        SyncedFromFetched(replies, page + 1);
      }
    }
  }
}
