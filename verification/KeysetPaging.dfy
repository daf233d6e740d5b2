/**
  Keyset paging of `POST /secured/graph/doc-values/find` in the mock Knovas API:
  listing order, cursor and pages (`app.find_doc_values`).
 */
module KeysetPaging {
  import opened Prelude
  import opened Sorting
  import opened Strings

  /** A matching document: its sort value, if the sort field has one, and its pointer. */
  datatype Row = Row(key: Option<string>, pointer: string)

  /** Sort by a field or by the pointer alone; ascending or descending. */
  datatype Order = Order(byField: bool, descending: bool)

  // ----- the listing -----------------------------------------------------------

  predicate PointerLe(a: Row, b: Row) { StringLe(a.pointer, b.pointer) }
  predicate PointerGe(a: Row, b: Row) { StringLe(b.pointer, a.pointer) }

  function KeyText(r: Row): string { if r.key.Some? then r.key.value else "" }

  predicate KeyLe(a: Row, b: Row) { StringLe(KeyText(a), KeyText(b)) }
  predicate KeyGe(a: Row, b: Row) { StringLe(KeyText(b), KeyText(a)) }

  function WithKey(rows: seq<Row>, some: bool): (r: seq<Row>)
    ensures forall x :: x in r <==> x in rows && x.key.Some? == some
  {
    if rows == [] then []
    else (if rows[0].key.Some? == some then [rows[0]] else []) + WithKey(rows[1..], some)
  }

  /** The rows in listing order: two stable sorts of the rows with a key, then those without. */
  function Listing(rows: seq<Row>, o: Order): seq<Row> {
    if !o.byField then
      if o.descending then Sort(rows, PointerGe) else Sort(rows, PointerLe)
    else
      var present := Sort(WithKey(rows, true), PointerLe);
      var sorted := if o.descending then Sort(present, KeyGe) else Sort(present, KeyLe);
      sorted + Sort(WithKey(rows, false), PointerLe)
  }

  /** The listing order itself: key first (nulls last), then the pointer, always ascending behind a key. */
  predicate Before(o: Order, a: Row, b: Row) {
    if !o.byField then if o.descending then StringLt(b.pointer, a.pointer) else StringLt(a.pointer, b.pointer)
    else match (a.key, b.key)
      case (Some(x), Some(y)) =>
        if x == y then StringLt(a.pointer, b.pointer) else if o.descending then StringLt(y, x) else StringLt(x, y)
      case (Some(_), None) => true
      case (None, Some(_)) => false
      case (None, None) => StringLt(a.pointer, b.pointer)
  }

  lemma StringLtTransitive(a: string, b: string, c: string)
    requires StringLt(a, b) && StringLt(b, c)
    ensures StringLt(a, c)
  {
    StringLeTransitive(a, b, c);
    if a == c {
      StringLeAntiSymmetric(a, b);
    }
  }

  lemma StringLtAsymmetric(a: string, b: string)
    requires StringLt(a, b)
    ensures !StringLt(b, a)
  {
    if StringLe(b, a) {
      StringLeAntiSymmetric(a, b);
    }
  }

  lemma ThenBy(a: string, b: string, c: string)
    ensures StringLt(a, b) && StringLt(b, c) ==> StringLt(a, c)
    ensures StringLt(a, b) ==> !StringLt(b, a)
  {
    if StringLt(a, b) && StringLt(b, c) {
      StringLtTransitive(a, b, c);
    }
    if StringLt(a, b) {
      StringLtAsymmetric(a, b);
    }
  }

  lemma BeforeTransitive(o: Order, a: Row, b: Row, c: Row)
    requires Before(o, a, b) && Before(o, b, c)
    ensures Before(o, a, c)
  {
    if o.byField || !o.descending {
      ThenBy(a.pointer, b.pointer, c.pointer);
    } else {
      ThenBy(c.pointer, b.pointer, a.pointer);
    }
    if o.descending {
      ThenBy(KeyText(c), KeyText(b), KeyText(a));
    } else {
      ThenBy(KeyText(a), KeyText(b), KeyText(c));
    }
  }

  lemma BeforeIrreflexive(o: Order, a: Row)
    ensures !Before(o, a, a)
  {
  }

  ghost predicate InOrder(o: Order, s: seq<Row>) {
    forall i, j :: 0 <= i < j < |s| ==> Before(o, s[i], s[j])
  }

  /** The anchors of a store: every pointer once; a pointer sort looks at no key. */
  ghost predicate Store(o: Order, rows: seq<Row>) {
    && (forall x, y :: x in rows && y in rows && x.pointer == y.pointer ==> x == y)
    && (forall x :: multiset(rows)[x] <= 1)
    && (!o.byField ==> forall x :: x in rows ==> x.key == None)
  }

  lemma {:induction false} WithKeyCounts(rows: seq<Row>)
    ensures multiset(WithKey(rows, true)) + multiset(WithKey(rows, false)) == multiset(rows)
  {
    if rows != [] {
      WithKeyCounts(rows[1..]);
      assert rows == [rows[0]] + rows[1..];
    }
  }

  /** The listing is a permutation of the rows. */
  lemma ListingPermutes(rows: seq<Row>, o: Order)
    ensures multiset(Listing(rows, o)) == multiset(rows)
  {
    if !o.byField {
      if o.descending { SortPermutes(rows, PointerGe); } else { SortPermutes(rows, PointerLe); }
    } else {
      var present := Sort(WithKey(rows, true), PointerLe);
      SortPermutes(WithKey(rows, true), PointerLe);
      SortPermutes(WithKey(rows, false), PointerLe);
      if o.descending { SortPermutes(present, KeyGe); } else { SortPermutes(present, KeyLe); }
      WithKeyCounts(rows);
    }
  }

  lemma RowOrders()
    ensures TotalPreorder(PointerLe) && TotalPreorder(PointerGe) && TotalPreorder(KeyLe) && TotalPreorder(KeyGe)
  {
    StringLeOrders();
    assert forall a, b :: PointerLe(a, b) || PointerLe(b, a);
  }

  /** A part of a store, in any order, repeats no row. */
  lemma NoRepeat(s: seq<Row>, i: nat, j: nat)
    requires i < j < |s| && multiset(s)[s[i]] <= 1
    ensures s[i] != s[j]
  {
    var x := s[i];
    assert s == s[..i] + [x] + s[i + 1..];
    assert multiset(s) == multiset(s[..i]) + multiset{x} + multiset(s[i + 1..]);
    assert x !in multiset(s[i + 1..]);
    assert s[j] == s[i + 1..][j - i - 1];
  }

  lemma PartApart(rows: seq<Row>, o: Order, s: seq<Row>, i: nat, j: nat)
    requires Store(o, rows) && multiset(s) <= multiset(rows) && i < j < |s|
    ensures s[i].pointer != s[j].pointer
    ensures s[i] in rows && s[j] in rows
  {
    assert s[i] in multiset(s) && s[j] in multiset(s);
    NoRepeat(s, i, j);
  }

  ghost predicate AscendingPointers(s: seq<Row>) {
    forall i, j :: 0 <= i < j < |s| ==> StringLt(s[i].pointer, s[j].pointer)
  }

  ghost predicate DescendingPointers(s: seq<Row>) {
    forall i, j :: 0 <= i < j < |s| ==> StringLt(s[j].pointer, s[i].pointer)
  }

  lemma PointersAscend(rows: seq<Row>, o: Order, part: seq<Row>)
    requires Store(o, rows) && multiset(part) <= multiset(rows)
    ensures AscendingPointers(Sort(part, PointerLe))
  {
    RowOrders();
    SortSorts(part, PointerLe);
    SortPermutes(part, PointerLe);
    var s := Sort(part, PointerLe);
    forall i, j | 0 <= i < j < |s| ensures StringLt(s[i].pointer, s[j].pointer) {
      PartApart(rows, o, s, i, j);
      assert PointerLe(s[i], s[j]);
    }
  }

  lemma PointersDescend(rows: seq<Row>, o: Order)
    requires Store(o, rows)
    ensures DescendingPointers(Sort(rows, PointerGe))
  {
    RowOrders();
    SortSorts(rows, PointerGe);
    SortPermutes(rows, PointerGe);
    var s := Sort(rows, PointerGe);
    forall i, j | 0 <= i < j < |s| ensures StringLt(s[j].pointer, s[i].pointer) {
      PartApart(rows, o, s, i, j);
      assert PointerGe(s[i], s[j]);
    }
  }

  /** The two stable sorts of the rows with a key. */
  function Keyed(rows: seq<Row>, descending: bool): seq<Row> {
    var present := Sort(WithKey(rows, true), PointerLe);
    if descending then Sort(present, KeyGe) else Sort(present, KeyLe)
  }

  lemma KeyedPermutes(rows: seq<Row>, descending: bool)
    ensures multiset(Keyed(rows, descending)) == multiset(WithKey(rows, true))
    ensures multiset(Keyed(rows, descending)) <= multiset(rows)
  {
    var present := Sort(WithKey(rows, true), PointerLe);
    SortPermutes(WithKey(rows, true), PointerLe);
    if descending { SortPermutes(present, KeyGe); } else { SortPermutes(present, KeyLe); }
    WithKeyCounts(rows);
  }

  lemma KeyedInOrder(rows: seq<Row>, o: Order)
    requires Store(o, rows) && o.byField
    ensures InOrder(o, Keyed(rows, o.descending))
    ensures forall x :: x in Keyed(rows, o.descending) ==> x.key.Some?
  {
    var present, s := Sort(WithKey(rows, true), PointerLe), Keyed(rows, o.descending);
    RowOrders();
    SortSorts(WithKey(rows, true), PointerLe);
    if o.descending { SortStable(present, KeyGe, PointerLe); } else { SortStable(present, KeyLe, PointerLe); }
    KeyedPermutes(rows, o.descending);
    SameElements(s, WithKey(rows, true));
    forall i, j | 0 <= i < j < |s| ensures Before(o, s[i], s[j]) {
      PartApart(rows, o, s, i, j);
      assert s[i] in s && s[j] in s;
      KeyedPair(o, s[i], s[j]);
    }
  }

  lemma KeyedPair(o: Order, a: Row, b: Row)
    requires o.byField && a.key.Some? && b.key.Some? && a.pointer != b.pointer
    requires if o.descending then LexLe(KeyGe, PointerLe, a, b) else LexLe(KeyLe, PointerLe, a, b)
    ensures Before(o, a, b)
  {
    if a.key == b.key {
      StringLeTotal(KeyText(a), KeyText(a));
    }
  }

  /** The listing is in listing order: the stable two-pass sort is the order `beyond` compares by. */
  lemma ListingInOrder(rows: seq<Row>, o: Order)
    requires Store(o, rows)
    ensures InOrder(o, Listing(rows, o))
  {
    if !o.byField && o.descending {
      PointersDescend(rows, o);
    } else if !o.byField {
      PointersAscend(rows, o, rows);
    } else {
      var keyed, rest := Keyed(rows, o.descending), Sort(WithKey(rows, false), PointerLe);
      KeyedInOrder(rows, o);
      WithKeyCounts(rows);
      PointersAscend(rows, o, WithKey(rows, false));
      SortPermutes(WithKey(rows, false), PointerLe);
      SameElements(rest, WithKey(rows, false));
      JoinInOrder(o, keyed, rest);
    }
  }

  lemma JoinInOrder(o: Order, keyed: seq<Row>, rest: seq<Row>)
    requires o.byField && InOrder(o, keyed)
    requires forall x :: x in keyed ==> x.key.Some?
    requires forall x :: x in rest ==> x.key.None?
    requires AscendingPointers(rest)
    ensures InOrder(o, keyed + rest)
  {
    var s := keyed + rest;
    forall i, j | 0 <= i < j < |s| ensures Before(o, s[i], s[j]) {
      if j < |keyed| {
        assert Before(o, keyed[i], keyed[j]);
      } else {
        assert s[j] in rest;
        if i < |keyed| {
          assert s[i] in keyed;
        } else {
          assert s[i] in rest;
        }
      }
    }
  }

  // ----- pages -----------------------------------------------------------------

  /** `beyond`: strictly after the cursor's (key, pointer), as the code compares. */
  predicate Beyond(o: Order, cursor: Row, row: Row) {
    if !o.byField then if o.descending then StringLt(row.pointer, cursor.pointer) else StringLt(cursor.pointer, row.pointer)
    else if cursor.key.None? then row.key.None? && StringLt(cursor.pointer, row.pointer)
    else if row.key.None? then true
    else if row.key.value == cursor.key.value then StringLt(cursor.pointer, row.pointer)
    else if o.descending then StringLt(row.key.value, cursor.key.value) else StringLt(cursor.key.value, row.key.value)
  }

  lemma BeyondIsAfter(o: Order, cursor: Row, row: Row)
    ensures Beyond(o, cursor, row) <==> Before(o, cursor, row)
  {
  }

  predicate After(o: Order, cursor: Option<Row>, row: Row) { cursor.None? || Beyond(o, cursor.value, row) }

  function Remaining(o: Order, listing: seq<Row>, cursor: Option<Row>): seq<Row> {
    if listing == [] then []
    else (if After(o, cursor, listing[0]) then [listing[0]] else []) + Remaining(o, listing[1..], cursor)
  }

  datatype Page = Page(rows: seq<Row>, next: Option<Row>, complete: bool)

  /** The rows a request scans: the listing, cut at the scan budget. */
  function Scanned(rows: seq<Row>, o: Order, budget: Option<nat>): seq<Row> {
    var listing := Listing(rows, o);
    if budget.Some? && |listing| > budget.value then listing[..budget.value] else listing
  }

  /** The page after the cursor in a scanned listing, and the next cursor. */
  function PageOf(o: Order, scanned: seq<Row>, cursor: Option<Row>, limit: nat): (seq<Row>, Option<Row>) {
    var remaining := Remaining(o, scanned, cursor);
    var page := remaining[..Min(limit, |remaining|)];
    (page, if |remaining| > limit && page != [] then Some(page[|page| - 1]) else None)
  }

  /** One request: the page, the next cursor, and whether the answer is complete. */
  function Find(rows: seq<Row>, o: Order, cursor: Option<Row>, limit: nat, budget: Option<nat>): Page {
    var (page, next) := PageOf(o, Scanned(rows, o, budget), cursor, limit);
    Page(page, next, next.None? && !(budget.Some? && |Listing(rows, o)| > budget.value))
  }

  /** In a list in listing order the rows after a cursor are a suffix. */
  lemma {:induction false} RemainingIsSuffix(o: Order, listing: seq<Row>, cursor: Option<Row>) returns (k: nat)
    requires InOrder(o, listing)
    ensures k <= |listing| && Remaining(o, listing, cursor) == listing[k..]
    ensures forall i :: 0 <= i < |listing| ==> (After(o, cursor, listing[i]) <==> k <= i)
  {
    if listing == [] {
      return 0;
    }
    if After(o, cursor, listing[0]) {
      AllAfter(o, listing, cursor);
      return 0;
    }
    var m := RemainingIsSuffix(o, listing[1..], cursor);
    assert listing[1..][m..] == listing[m + 1..];
    assert forall i :: 1 <= i < |listing| ==> listing[1..][i - 1] == listing[i];
    k := m + 1;
  }

  lemma {:induction false} AllAfter(o: Order, listing: seq<Row>, cursor: Option<Row>)
    requires InOrder(o, listing) && listing != [] && After(o, cursor, listing[0])
    ensures Remaining(o, listing, cursor) == listing
    ensures forall i :: 0 <= i < |listing| ==> After(o, cursor, listing[i])
  {
    if |listing| > 1 {
      if cursor.Some? {
        BeyondIsAfter(o, cursor.value, listing[0]);
        BeforeTransitive(o, cursor.value, listing[0], listing[1]);
        BeyondIsAfter(o, cursor.value, listing[1]);
      }
      AllAfter(o, listing[1..], cursor);
      assert listing == [listing[0]] + listing[1..];
      assert forall i :: 1 <= i < |listing| ==> listing[i] == listing[1..][i - 1];
    }
  }

  /** The page after a cursor: the next rows of the listing, and where to go on. */
  lemma PageOfListing(o: Order, listing: seq<Row>, cursor: Option<Row>, limit: nat) returns (k: nat, m: nat)
    requires InOrder(o, listing) && limit >= 1
    ensures k <= m <= |listing|
    ensures PageOf(o, listing, cursor, limit).0 == listing[k..m]
    ensures Remaining(o, listing, cursor) == listing[k..]
    ensures forall i :: 0 <= i < |listing| ==> (After(o, cursor, listing[i]) <==> k <= i)
    ensures var next := PageOf(o, listing, cursor, limit).1;
            if next.None? then m == |listing| else k < m < |listing| && next.value == listing[m - 1]
  {
    k := RemainingIsSuffix(o, listing, cursor);
    m := k + Min(limit, |listing| - k);
    assert listing[k..][..m - k] == listing[k..m];
  }

  // ----- following the cursor --------------------------------------------------

  /** What a request sees of a store that may have changed since the last one, and its limit. */
  datatype Request = Request(rows: seq<Row>, limit: nat)

  ghost predicate Requests(o: Order, rs: seq<Request>) {
    forall i :: 0 <= i < |rs| ==> Store(o, rs[i].rows) && rs[i].limit >= 1
  }

  /** The rows of all pages, following `next_after` until it is null. */
  ghost function Follow(o: Order, rs: seq<Request>, cursor: Option<Row>): seq<Row> {
    if rs == [] then []
    else
      var (page, next) := PageOf(o, Listing(rs[0].rows, o), cursor, rs[0].limit);
      page + (if next.None? then [] else Follow(o, rs[1..], next))
  }

  /** The walk ended: some request answered without a next cursor. */
  ghost predicate Ended(o: Order, rs: seq<Request>, cursor: Option<Row>) {
    rs != [] &&
    var next := PageOf(o, Listing(rs[0].rows, o), cursor, rs[0].limit).1;
    next.None? || Ended(o, rs[1..], next)
  }

  lemma AfterTransitive(o: Order, cursor: Option<Row>, a: Row, b: Row)
    requires After(o, cursor, a) && Before(o, a, b)
    ensures After(o, cursor, b)
  {
    if cursor.Some? {
      BeyondIsAfter(o, cursor.value, a);
      BeforeTransitive(o, cursor.value, a, b);
      BeyondIsAfter(o, cursor.value, b);
    }
  }

  /** Across all pages the rows come in listing order, so no (key, pointer) comes twice. */
  lemma {:induction false} FollowInOrder(o: Order, rs: seq<Request>, cursor: Option<Row>)
    requires Requests(o, rs)
    ensures InOrder(o, Follow(o, rs, cursor))
    ensures AllBeyond(o, cursor, Follow(o, rs, cursor))
    decreases |rs|
  {
    if rs != [] {
      var (page, next) := PageOf(o, Listing(rs[0].rows, o), cursor, rs[0].limit);
      if next.Some? {
        FollowInOrder(o, rs[1..], next);
        JoinPages(o, rs[0].rows, cursor, rs[0].limit, Follow(o, rs[1..], next));
      } else {
        JoinPages(o, rs[0].rows, cursor, rs[0].limit, []);
      }
    }
  }

  ghost predicate AllBeyond(o: Order, cursor: Option<Row>, s: seq<Row>) {
    forall i :: 0 <= i < |s| ==> After(o, cursor, s[i])
  }

  /** A page followed by rows in order after its last one. */
  lemma JoinPages(o: Order, rows: seq<Row>, cursor: Option<Row>, limit: nat, rest: seq<Row>)
    requires Store(o, rows) && limit >= 1
    requires InOrder(o, rest)
    requires var next := PageOf(o, Listing(rows, o), cursor, limit).1;
             if next.Some? then AllBeyond(o, next, rest) else rest == []
    ensures var page := PageOf(o, Listing(rows, o), cursor, limit).0;
            InOrder(o, page + rest) && AllBeyond(o, cursor, page + rest)
  {
    ListingInOrder(rows, o);
    var k, m := PageOfListing(o, Listing(rows, o), cursor, limit);
    JoinSlice(o, Listing(rows, o), k, m, cursor, rest);
  }

  lemma JoinSlice(o: Order, listing: seq<Row>, k: nat, m: nat, cursor: Option<Row>, rest: seq<Row>)
    requires InOrder(o, listing) && k <= m <= |listing| && InOrder(o, rest)
    requires forall i :: k <= i < m ==> After(o, cursor, listing[i])
    requires rest != [] ==> k < m && AllBeyond(o, Some(listing[m - 1]), rest)
    ensures InOrder(o, listing[k..m] + rest) && AllBeyond(o, cursor, listing[k..m] + rest)
  {
    var page := listing[k..m];
    forall j | 0 <= j < |rest|
      ensures After(o, cursor, rest[j]) && forall i :: 0 <= i < |page| ==> Before(o, page[i], rest[j])
    {
      PageThenRest(o, listing, k, m, cursor, rest[j]);
    }
    ConcatInOrder(o, page, rest);
  }

  lemma ConcatInOrder(o: Order, a: seq<Row>, b: seq<Row>)
    requires InOrder(o, a) && InOrder(o, b)
    requires forall j :: 0 <= j < |b| ==> forall i :: 0 <= i < |a| ==> Before(o, a[i], b[j])
    ensures InOrder(o, a + b)
  {
    var s := a + b;
    forall i, j | 0 <= i < j < |s| ensures Before(o, s[i], s[j]) {
      if i < |a| <= j {
        assert s[j] == b[j - |a|];
      }
    }
  }

  lemma PageThenRest(o: Order, listing: seq<Row>, k: nat, m: nat, cursor: Option<Row>, x: Row)
    requires InOrder(o, listing) && k < m <= |listing|
    requires After(o, cursor, listing[m - 1]) && After(o, Some(listing[m - 1]), x)
    ensures After(o, cursor, x)
    ensures forall i :: k <= i < m ==> Before(o, listing[i], x)
  {
    var last := listing[m - 1];
    BeyondIsAfter(o, last, x);
    AfterTransitive(o, cursor, last, x);
    forall i | k <= i < m ensures Before(o, listing[i], x) {
      if i < m - 1 {
        BeforeTransitive(o, listing[i], last, x);
      }
    }
  }

  /** A row after the cursor is on the page, or after the next cursor. */
  lemma OnPageOrAfter(o: Order, rows: seq<Row>, cursor: Option<Row>, limit: nat, x: Row)
    requires Store(o, rows) && limit >= 1
    requires x in rows && After(o, cursor, x)
    ensures var (page, next) := PageOf(o, Listing(rows, o), cursor, limit);
            x in page || (next.Some? && After(o, next, x))
  {
    var listing := Listing(rows, o);
    ListingInOrder(rows, o);
    var k, m := PageOfListing(o, listing, cursor, limit);
    ListingPermutes(rows, o);
    SameElements(listing, rows);
    var i :| 0 <= i < |listing| && listing[i] == x;
    if i < m {
      assert listing[k..m][i - k] == x;
    } else {
      assert Before(o, listing[m - 1], listing[i]);
      BeyondIsAfter(o, listing[m - 1], x);
    }
  }

  /** A row that every request sees unchanged, and that lies after the cursor, is returned. */
  lemma {:induction false} StableRowReturned(o: Order, rs: seq<Request>, cursor: Option<Row>, x: Row)
    requires Requests(o, rs) && Ended(o, rs, cursor)
    requires forall i :: 0 <= i < |rs| ==> x in rs[i].rows
    requires After(o, cursor, x)
    ensures x in Follow(o, rs, cursor)
    decreases |rs|
  {
    assert x in rs[0].rows;
    OnPageOrAfter(o, rs[0].rows, cursor, rs[0].limit, x);
    var (page, next) := PageOf(o, Listing(rs[0].rows, o), cursor, rs[0].limit);
    if x !in page {
      StableRowReturned(o, rs[1..], next, x);
    }
  }

  lemma {:induction false} InOrderOnce(o: Order, s: seq<Row>, x: Row)
    requires InOrder(o, s)
    ensures multiset(s)[x] <= 1
  {
    if s != [] {
      assert s == [s[0]] + s[1..];
      InOrderOnce(o, s[1..], x);
      if s[0] == x {
        forall i | 0 <= i < |s[1..]| ensures s[1..][i] != x {
          assert Before(o, s[0], s[i + 1]);
          BeforeIrreflexive(o, x);
        }
      }
    }
  }

  /**
    Keyset paging: whatever else is inserted, removed or re-keyed between the
    pages, a row whose match, key and pointer stay as they are is returned exactly
    once, and all pages together are in listing order.
   */
  lemma StableRowOnce(o: Order, rs: seq<Request>, x: Row)
    requires Requests(o, rs) && Ended(o, rs, None)
    requires forall i :: 0 <= i < |rs| ==> x in rs[i].rows
    ensures multiset(Follow(o, rs, None))[x] == 1
    ensures InOrder(o, Follow(o, rs, None))
  {
    StableRowReturned(o, rs, None, x);
    FollowInOrder(o, rs, None);
    InOrderOnce(o, Follow(o, rs, None), x);
  }

  /** The pages over one fixed scanned listing, following the cursor. */
  ghost function FollowFixed(o: Order, scanned: seq<Row>, limits: seq<nat>, cursor: Option<Row>): seq<Row> {
    if limits == [] then []
    else
      var (page, next) := PageOf(o, scanned, cursor, limits[0]);
      page + (if next.None? then [] else FollowFixed(o, scanned, limits[1..], next))
  }

  ghost predicate EndedFixed(o: Order, scanned: seq<Row>, limits: seq<nat>, cursor: Option<Row>) {
    limits != [] &&
    var next := PageOf(o, scanned, cursor, limits[0]).1;
    next.None? || EndedFixed(o, scanned, limits[1..], next)
  }

  /** One page and what remains after its cursor make up what remained before. */
  lemma PageStep(o: Order, scanned: seq<Row>, cursor: Option<Row>, limit: nat)
    requires InOrder(o, scanned) && limit >= 1
    ensures var (page, next) := PageOf(o, scanned, cursor, limit);
            Remaining(o, scanned, cursor) == page + (if next.None? then [] else Remaining(o, scanned, next))
  {
    var k, m := PageOfListing(o, scanned, cursor, limit);
    SplitSuffix(scanned, k, m);
    if m < |scanned| {
      SuffixAfterLast(o, scanned, m);
    }
  }

  lemma SplitSuffix(s: seq<Row>, k: nat, m: nat)
    requires k <= m <= |s|
    ensures s[k..] == s[k..m] + s[m..]
  {
  }

  lemma {:induction false} PagesAreListing(o: Order, scanned: seq<Row>, limits: seq<nat>, cursor: Option<Row>)
    requires InOrder(o, scanned) && EndedFixed(o, scanned, limits, cursor)
    requires forall i :: 0 <= i < |limits| ==> limits[i] >= 1
    ensures FollowFixed(o, scanned, limits, cursor) == Remaining(o, scanned, cursor)
    decreases |limits|
  {
    PageStep(o, scanned, cursor, limits[0]);
    var next := PageOf(o, scanned, cursor, limits[0]).1;
    if next.Some? {
      PagesAreListing(o, scanned, limits[1..], next);
    }
  }

  /** Over a fixed listing every walk ends: each page with a successor returns at least one row. */
  lemma {:induction false} EnoughPagesEnd(o: Order, scanned: seq<Row>, limits: seq<nat>, cursor: Option<Row>)
    requires InOrder(o, scanned)
    requires forall i :: 0 <= i < |limits| ==> limits[i] >= 1
    requires |limits| > |Remaining(o, scanned, cursor)|
    ensures EndedFixed(o, scanned, limits, cursor)
    decreases |limits|
  {
    PageStep(o, scanned, cursor, limits[0]);
    var next := PageOf(o, scanned, cursor, limits[0]).1;
    if next.Some? {
      EnoughPagesEnd(o, scanned, limits[1..], next);
    }
  }

  /** On an unchanged store the pages concatenate to the listing, cut at the scan budget if there is one. */
  lemma UnchangedStorePages(o: Order, rows: seq<Row>, limits: seq<nat>, budget: Option<nat>)
    requires Store(o, rows) && EndedFixed(o, Scanned(rows, o, budget), limits, None)
    requires forall i :: 0 <= i < |limits| ==> limits[i] >= 1
    ensures FollowFixed(o, Scanned(rows, o, budget), limits, None) == Scanned(rows, o, budget)
    ensures Scanned(rows, o, budget) <= Listing(rows, o)
    ensures budget.None? ==> multiset(Scanned(rows, o, budget)) == multiset(rows)
  {
    ListingInOrder(rows, o);
    ListingPermutes(rows, o);
    var scanned := Scanned(rows, o, budget);
    PagesAreListing(o, scanned, limits, None);
    if scanned != [] {
      AllAfter(o, scanned, None);
    }
  }

  /** A request scans the whole listing, or as much of it as the budget allows. */
  lemma ScannedExactly(rows: seq<Row>, o: Order, budget: Option<nat>)
    ensures Scanned(rows, o, budget) <= Listing(rows, o)
    ensures |Scanned(rows, o, budget)| == if budget.Some? && budget.value < |rows| then budget.value else |rows|
  {
    ListingPermutes(rows, o);
    SameElements(Listing(rows, o), rows);
  }

  /** The page that begins at position `k` of a scanned listing. */
  ghost predicate IsPage(scanned: seq<Row>, k: nat, limit: nat, page: seq<Row>, next: Option<Row>) {
    var later := |scanned| - k;
    && |page| == Min(limit, later) && k + |page| <= |scanned| && page == scanned[k..k + |page|]
    && (next.Some? <==> later > limit) && (next.Some? ==> page != [] && next.value == page[|page| - 1])
  }

  lemma PageOfExactly(o: Order, scanned: seq<Row>, cursor: Option<Row>, limit: nat) returns (k: nat)
    requires InOrder(o, scanned) && limit >= 1
    ensures k <= |scanned| && forall i :: 0 <= i < |scanned| ==> (After(o, cursor, scanned[i]) <==> k <= i)
    ensures var (page, next) := PageOf(o, scanned, cursor, limit); IsPage(scanned, k, limit, page, next)
  {
    k := RemainingIsSuffix(o, scanned, cursor);
    var n := Min(limit, |scanned| - k);
    assert scanned[k..][..n] == scanned[k..k + n];
  }

  /**
    A page has `limit` rows, or as many as there are after the cursor: the first of them in listing order. There is
    a next cursor exactly when more are left, and it is the page's last row. The answer is complete exactly when
    there is none and the budget did not cut the listing.
   */
  lemma PageExactly(rows: seq<Row>, o: Order, cursor: Option<Row>, limit: nat, budget: Option<nat>) returns (k: nat)
    requires Store(o, rows) && limit >= 1
    ensures var scanned, answer := Scanned(rows, o, budget), Find(rows, o, cursor, limit, budget);
            && k <= |scanned| && (forall i :: 0 <= i < |scanned| ==> (After(o, cursor, scanned[i]) <==> k <= i))
            && IsPage(scanned, k, limit, answer.rows, answer.next)
            && (answer.complete <==> answer.next.None? && !(budget.Some? && budget.value < |rows|))
  {
    ListingInOrder(rows, o);
    ScannedExactly(rows, o, budget);
    ListingPermutes(rows, o);
    SameElements(Listing(rows, o), rows);
    k := PageOfExactly(o, Scanned(rows, o, budget), cursor, limit);
  }

  /** `complete` is said exactly by an answer after which nothing of the listing is left. */
  lemma CompleteIsComplete(o: Order, rows: seq<Row>, cursor: Option<Row>, limit: nat, budget: Option<nat>)
    requires Store(o, rows) && limit >= 1
    ensures Find(rows, o, cursor, limit, budget).complete
            <==> Find(rows, o, cursor, limit, budget).next.None? && Scanned(rows, o, budget) == Listing(rows, o)
    ensures Find(rows, o, cursor, limit, budget).complete ==>
              forall x :: x in rows && After(o, cursor, x) ==> x in Find(rows, o, cursor, limit, budget).rows
  {
    ListingInOrder(rows, o);
    ListingPermutes(rows, o);
    var listing := Listing(rows, o);
    SameElements(listing, rows);
    var k, m := PageOfListing(o, listing, cursor, limit);
    if Find(rows, o, cursor, limit, budget).complete {
      forall x | x in rows && After(o, cursor, x) ensures x in listing[k..m] {
        assert x in listing;
        LaterInSlice(o, listing, cursor, k, m, x);
      }
    }
  }

  lemma LaterInSlice(o: Order, listing: seq<Row>, cursor: Option<Row>, k: nat, m: nat, x: Row)
    requires k <= m <= |listing| && forall i :: 0 <= i < |listing| ==> (After(o, cursor, listing[i]) ==> k <= i < m)
    requires x in listing && After(o, cursor, x)
    ensures x in listing[k..m]
  {
    var i :| 0 <= i < |listing| && listing[i] == x;
    assert listing[k..m][i - k] == x;
  }

  lemma SuffixAfterLast(o: Order, listing: seq<Row>, m: nat)
    requires InOrder(o, listing) && 1 <= m <= |listing|
    ensures Remaining(o, listing, Some(listing[m - 1])) == listing[m..]
  {
    var k := RemainingIsSuffix(o, listing, Some(listing[m - 1]));
    forall i | 0 <= i < |listing| ensures After(o, Some(listing[m - 1]), listing[i]) <==> m <= i {
      BeyondIsAfter(o, listing[m - 1], listing[i]);
      if i < m - 1 {
        if Before(o, listing[m - 1], listing[i]) {
          BeforeTransitive(o, listing[i], listing[m - 1], listing[i]);
        }
        BeforeIrreflexive(o, listing[i]);
      } else if i == m - 1 {
        BeforeIrreflexive(o, listing[i]);
      }
    }
    assert k == m by {
      assert k < |listing| ==> After(o, Some(listing[m - 1]), listing[k]);
      assert m < |listing| ==> After(o, Some(listing[m - 1]), listing[m]);
    }
  }
}
