/** The parent timeline: newest-first keyset pages over a student's visible
    observations, and the cursor text that links the pages. */
module Timeline {
  import opened Collections
  import opened Entities
  import opened DecimalText
  import opened Calendar

  // ── cursor text ──────────────────────────────────────────────────────────

  datatype CursorError = InvalidCursorFormat

  datatype Key = Key(date: int, pkid: nat)

  function PrintCursor(k: Key): string
    requires Printable(k.date)
  {
    IsoDate(CivilOf(k.date)) + "::" + NatToString(k.pkid)
  }

  /** The pattern ^(\d{4}-\d{2}-\d{2})::(\d+)$. */
  predicate CursorShape(s: string) {
    && |s| >= 13
    && AllDigits(s[..4]) && s[4] == '-' && AllDigits(s[5..7]) && s[7] == '-' && AllDigits(s[8..10])
    && s[10] == ':' && s[11] == ':'
    && AllDigits(s[12..])
  }

  function CursorTriple(s: string): Civil
    requires CursorShape(s)
  {
    Civil(ParseNat(s[..4]), ParseNat(s[5..7]), ParseNat(s[8..10]))
  }

  /** A month or day outside the ranges of the ISO format gives an invalid Date;
      any other triple gives a Date, whose ISO text must be the text given. */
  function ParseCursor(s: string): Result<Key, CursorError> {
    if !CursorShape(s) then Err(InvalidCursorFormat)
    else
      var c := CursorTriple(s);
      if !(1 <= c.month <= 12 && 1 <= c.day <= 31) then Err(InvalidCursorFormat)
      else
        TripleSurvivesIffReal(c);
        if IsoDate(CivilOf(DayNumber(c))) != s[..10] then Err(InvalidCursorFormat)
        else Ok(Key(DayNumber(c), ParseNat(s[12..])))
  }

  lemma IsoDateReads(c: Civil, s: string)
    requires c.year < 10000 && c.month < 100 && c.day < 100
    requires |s| >= 10 && s[..10] == IsoDate(c)
    ensures AllDigits(s[..4]) && s[4] == '-' && AllDigits(s[5..7]) && s[7] == '-' && AllDigits(s[8..10])
    ensures Civil(ParseNat(s[..4]), ParseNat(s[5..7]), ParseNat(s[8..10])) == c
  {
    hide Pad, ParseNat, Pow10;
    var iso := IsoDate(c);
    assert s[..4] == s[..10][..4] == iso[..4] == Pad(c.year, 4);
    assert s[5..7] == s[..10][5..7] == iso[5..7] == Pad(c.month, 2);
    assert s[8..10] == s[..10][8..10] == iso[8..10] == Pad(c.day, 2);
    assert s[4] == s[..10][4] && s[7] == s[..10][7];
    Widths();
    PadThenParse(c.year, 4);
    PadThenParse(c.month, 2);
    PadThenParse(c.day, 2);
  }

  lemma DateParts(s: string)
    requires |s| >= 10 && s[4] == '-' && s[7] == '-'
    ensures s[..10] == s[..4] + "-" + s[5..7] + "-" + s[8..10]
  {
  }

  lemma IsoDateOfTriple(s: string)
    requires CursorShape(s)
    ensures IsoDate(CursorTriple(s)) == s[..10]
    ensures CursorTriple(s).year <= 9999 && CursorTriple(s).month <= 99 && CursorTriple(s).day <= 99
  {
    hide Pad, ParseNat, Pow10;
    DateParts(s);
    Widths();
    ParseThenPad(s[..4]);
    ParseThenPad(s[5..7]);
    ParseThenPad(s[8..10]);
  }

  lemma IsoDatesDiffer(a: Civil, b: Civil)
    requires a.year < 10000 && a.month < 100 && a.day < 100
    requires b.year < 10000 && b.month < 100 && b.day < 100
    requires IsoDate(a) == IsoDate(b)
    ensures a == b
  {
    assert IsoDate(a)[..10] == IsoDate(a) && IsoDate(b)[..10] == IsoDate(b);
    IsoDateReads(a, IsoDate(a));
    IsoDateReads(b, IsoDate(b));
  }

  /** Every cursor the timeline prints reads back as the same key. */
  lemma CursorRoundTrip(k: Key)
    requires Printable(k.date)
    ensures PrintCursor(k) != "" && ParseCursor(PrintCursor(k)) == Ok(k)
  {
    CursorReads(k);
    FourDigitYear(k.date);
    hide CursorShape, CursorTriple, IsoDate, PrintCursor, ParseNat, DayNumber;
  }

  lemma CursorReads(k: Key)
    requires Printable(k.date)
    ensures var s := PrintCursor(k);
      && CursorShape(s) && CursorTriple(s) == CivilOf(k.date)
      && s[..10] == IsoDate(CivilOf(k.date)) && ParseNat(s[12..]) == k.pkid
  {
    hide CivilOf, NatToString, ParseNat, Pad;
    var c := CivilOf(k.date);
    var s := PrintCursor(k);
    FourDigitYear(k.date);
    assert s[..10] == IsoDate(c);
    assert s[12..] == NatToString(k.pkid);
    IsoDateReads(c, s);
    PrintThenParse(k.pkid);
  }

  /** The parser accepts a text exactly when it has the shape of a cursor and its
      date part is a full-date that exists; it then reads that date. */
  lemma CursorAcceptsRealDates(s: string)
    ensures ParseCursor(s).Ok? <==> CursorShape(s) && RealDate(CursorTriple(s))
    ensures ParseCursor(s).Ok? ==>
      ParseCursor(s).value == Key(DayNumber(CursorTriple(s)), ParseNat(s[12..])) && Printable(ParseCursor(s).value.date)
  {
    if CursorShape(s) {
      var c := CursorTriple(s);
      IsoDateOfTriple(s);
      if 1 <= c.month <= 12 && 1 <= c.day <= 31 {
        TripleSurvivesIffReal(c);
        if RealDate(c) {
          RealDatesPrintable(c);
        } else {
          NextMonthPrintsDifferently(c);
        }
      }
    }
  }

  lemma NextMonthPrintsDifferently(c: Civil)
    requires c.year <= 9999 && 1 <= c.month <= 12 && MonthLength(c.year, c.month) < c.day <= 31
    ensures DayNumber(c) >= 0 && IsoDate(CivilOf(DayNumber(c))) != IsoDate(c)
  {
    hide IsoDate, Pad, CivilOf, YearStart;
    TripleSurvivesIffReal(c);
    var r := CivilOf(DayNumber(c));
    StaysInYear(c);
    DayInYear(r);
    YearUnique(DayNumber(c), c.year, r.year);
    if IsoDate(r) == IsoDate(c) { IsoDatesDiffer(r, c); }
  }

  lemma StaysInYear(c: Civil)
    requires 1 <= c.month <= 12 && MonthLength(c.year, c.month) < c.day <= 31
    ensures YearStart(c.year) <= DayNumber(c) < YearStart(c.year + 1)
  {
    hide YearStart;
    MonthsIncrease(c.year, c.month + 2, 13);
    YearSpan(c.year);
    assert MonthStart(c.year, c.month + 2)
      == MonthStart(c.year, c.month) + MonthLength(c.year, c.month) + MonthLength(c.year, c.month + 1);
  }

  // ── one page ─────────────────────────────────────────────────────────────

  datatype Query = Query(schoolPkid: nat, studentPkid: nat, date: Option<int>, pageSize: nat)

  datatype Page = Page(items: seq<DailyReport>, nextCursor: Option<string>)

  function KeyOf(r: DailyReport): Key { Key(r.date, r.pkid) }

  predicate Below(a: Key, b: Key) { a.date < b.date || (a.date == b.date && a.pkid < b.pkid) }

  /** The rows of the feed: the student's, in the school, visible to parents and on the pinned day. */
  predicate InFeed(q: Query, r: DailyReport) {
    r.schoolPkid == q.schoolPkid && r.studentPkid == q.studentPkid && r.visibleToParents
    && (q.date.Some? ==> r.date == q.date.value)
  }

  function Selected(q: Query, after: Option<Key>): DailyReport -> bool {
    (r: DailyReport) => InFeed(q, r) && (after.Some? ==> Below(KeyOf(r), after.value))
  }

  predicate NewestFirst(a: DailyReport, b: DailyReport) {
    a.date > b.date || (a.date == b.date && a.pkid >= b.pkid)
  }

  /** Everything the query selects after a key, in feed order. */
  function FeedAfter(rows: seq<DailyReport>, q: Query, after: Option<Key>): seq<DailyReport> {
    SortBy(Filter(rows, Selected(q, after)), NewestFirst)
  }

  function PageAfter(t: ReportTable, q: Query, after: Option<Key>): Page
    requires forall r | r in t.rows :: Printable(r.date)
  {
    var selected := FeedAfter(t.rows, q, after);
    SortPermutes(Filter(t.rows, Selected(q, after)), NewestFirst);
    var rows := if |selected| > q.pageSize + 1 then selected[..q.pageSize + 1] else selected;
    var hasMore := |rows| > q.pageSize;
    var items := if hasMore then rows[..q.pageSize] else rows;
    if hasMore && items != [] && rows[q.pageSize - 1].pkid != 0
    then Page(items, Some(PrintCursor(Key(items[|items| - 1].date, rows[q.pageSize - 1].pkid))))
    else Page(items, None)
  }

  /** getTimeline: an empty cursor text counts as no cursor. */
  function GetTimeline(t: ReportTable, q: Query, cursor: Option<string>): Result<Page, CursorError>
    requires forall r | r in t.rows :: Printable(r.date)
  {
    if cursor.None? || cursor.value == "" then Ok(PageAfter(t, q, None))
    else
      match ParseCursor(cursor.value)
      case Err(e) => Err(e)
      case Ok(k) => Ok(PageAfter(t, q, Some(k)))
  }

  // ── a walk while the table changes ───────────────────────────────────────

  ghost predicate GoodTable(t: ReportTable) {
    ValidTable(t) && forall r | r in t.rows :: Printable(r.date)
  }

  /** The table each page of a walk reads: any writes may happen in between. */
  ghost predicate Evolution(tables: seq<ReportTable>) {
    && (forall i | 0 <= i < |tables| :: GoodTable(tables[i]))
    && (forall i | 0 <= i < |tables| - 1 :: Evolves(tables[i], tables[i + 1]))
  }

  /** The pages a client gets by following nextCursor, one table state per
      request; the walk stops at a null cursor or when the client stops. */
  function Walk(tables: seq<ReportTable>, q: Query, cursor: Option<string>): (pages: seq<Page>)
    requires forall i | 0 <= i < |tables| :: forall r | r in tables[i].rows :: Printable(r.date)
    ensures |pages| <= |tables|
  {
    if tables == [] then []
    else
      match GetTimeline(tables[0], q, cursor)
      case Err(_) => []
      case Ok(page) =>
        [page] + if page.nextCursor.None? then [] else Walk(tables[1..], q, page.nextCursor)
  }

  function Items(pages: seq<Page>): seq<DailyReport> {
    if pages == [] then [] else pages[0].items + Items(pages[1..])
  }

  predicate Finished(pages: seq<Page>) {
    pages != [] && pages[|pages| - 1].nextCursor.None?
  }

  predicate StrictlyDescending(s: seq<DailyReport>) {
    forall i, j | 0 <= i < j < |s| :: Below(KeyOf(s[j]), KeyOf(s[i]))
  }

  lemma FeedOrder()
    ensures TotalPreorder(NewestFirst)
  {
  }

  lemma FeedFacts(t: ReportTable, q: Query, after: Option<Key>)
    requires ValidTable(t)
    ensures StrictlyDescending(FeedAfter(t.rows, q, after))
    ensures forall r :: r in FeedAfter(t.rows, q, after) <==> r in t.rows && Selected(q, after)(r)
  {
    var f := Filter(t.rows, Selected(q, after));
    var s := FeedAfter(t.rows, q, after);
    FeedOrder();
    SortSorts(f, NewestFirst);
    SortPermutes(f, NewestFirst);
    forall i, j | 0 <= i < j < |s| ensures Below(KeyOf(s[j]), KeyOf(s[i])) {
      assert NewestFirst(s[i], s[j]);
      if s[i].pkid == s[j].pkid {
        SamePkidSameRow(t, s[i], s[j]);
        NoRepeats(t.rows, Selected(q, after), s, i, j);
      }
    }
  }

  lemma SamePkidSameRow(t: ReportTable, a: DailyReport, b: DailyReport)
    requires ValidTable(t) && a in t.rows && b in t.rows && a.pkid == b.pkid
    ensures a == b
  {
    var i :| 0 <= i < |t.rows| && t.rows[i] == a;
    var j :| 0 <= j < |t.rows| && t.rows[j] == b;
  }

  lemma NoRepeats(rows: seq<DailyReport>, p: DailyReport -> bool, s: seq<DailyReport>, i: nat, j: nat)
    requires forall a, b | 0 <= a < b < |rows| :: rows[a].pkid < rows[b].pkid
    requires multiset(s) == multiset(Filter(rows, p))
    requires i < j < |s|
    ensures s[i] != s[j]
  {
    if s[i] == s[j] {
      RepeatCount(s, i, j);
      FilterCount(rows, p, s[i]);
      assert Distinct(rows);
      DistinctCount(rows, s[i]);
      assert false;
    }
  }

  /** What one page of the feed is: the first rows after the key, strictly
      descending; a null cursor means nothing is left, another cursor is the key
      of the page's last row and everything left lies below it. */
  lemma PageFacts(t: ReportTable, q: Query, after: Option<Key>, page: Page)
    requires GoodTable(t) && q.pageSize > 0
    requires page == PageAfter(t, q, after)
    ensures StrictlyDescending(page.items) && |page.items| <= q.pageSize
    ensures forall r | r in page.items :: r in t.rows && InFeed(q, r) && (after.Some? ==> Below(KeyOf(r), after.value))
    ensures page.nextCursor.None? ==> forall r | r in t.rows && Selected(q, after)(r) :: r in page.items
    ensures page.nextCursor.Some? ==>
      && page.items != []
      && ParseCursor(page.nextCursor.value) == Ok(KeyOf(page.items[|page.items| - 1]))
      && page.nextCursor.value != ""
      && forall r | r in t.rows && Selected(q, after)(r) ::
           r in page.items || Below(KeyOf(r), KeyOf(page.items[|page.items| - 1]))
  {
    hide ParseCursor, PrintCursor, FeedAfter, CursorShape, PageAfter, NewestFirst;
    var s, n := FeedAfter(t.rows, q, after), q.pageSize;
    FeedFacts(t, q, after);
    PageShape(t, q, after);
    if |s| > n {
      CursorRoundTrip(KeyOf(s[n - 1]));
      forall r | r in page.items ensures r in s { }
      forall r | r in t.rows && Selected(q, after)(r) ensures r in page.items || Below(KeyOf(r), KeyOf(s[n - 1])) {
        PageCovers(s, n, r);
      }
    }
  }

  /** A row the feed may show: of the student in the school, visible to parents, of
      the day asked for if there is one, and behind the cursor if there is one. */
  predicate Eligible(q: Query, after: Option<Key>, r: DailyReport) {
    && r.schoolPkid == q.schoolPkid && r.studentPkid == q.studentPkid && r.visibleToParents
    && (q.date == None || q.date == Some(r.date))
    && (after == None || r.date < after.value.date || (r.date == after.value.date && r.pkid < after.value.pkid))
  }

  predicate Precedes(a: DailyReport, b: DailyReport) { a.date > b.date || (a.date == b.date && a.pkid > b.pkid) }

  /** A page outright: the eligible rows, newest first, as many as fit; the others
      come after each of them; and there is a cursor, naming the last row shown,
      exactly when more rows are eligible than fit. */
  lemma PageTells(t: ReportTable, q: Query, after: Option<Key>)
    requires GoodTable(t) && q.pageSize > 0
    ensures var page, n := PageAfter(t, q, after), |Filter(t.rows, Selected(q, after))|;
      && (forall r :: Selected(q, after)(r) <==> Eligible(q, after, r))
      && (forall i, j | 0 <= i < j < |page.items| :: Precedes(page.items[i], page.items[j]))
      && (forall r | r in page.items :: r in t.rows && Eligible(q, after, r))
      && |page.items| == (if n > q.pageSize then q.pageSize else n)
      && (forall r, x | r in t.rows && Eligible(q, after, r) && r !in page.items && x in page.items :: Precedes(x, r))
      && (page.nextCursor == None <==> n <= q.pageSize)
      && (page.nextCursor.Some? ==>
            page.items != [] && ParseCursor(page.nextCursor.value) == Ok(KeyOf(page.items[|page.items| - 1])))
  {
    hide ParseCursor, PrintCursor, CursorShape, PageAfter, FeedAfter, Filter;
    EligibleIsSelected(q, after);
    var page, s := PageAfter(t, q, after), FeedAfter(t.rows, q, after);
    FeedFacts(t, q, after);
    FeedCount(t, q, after);
    PageShape(t, q, after);
    PageFacts(t, q, after, page);
    forall r, x | r in t.rows && Eligible(q, after, r) && r !in page.items && x in page.items ensures Precedes(x, r) {
      OthersFollow(s, page.items, x, r);
    }
  }

  lemma OthersFollow(s: seq<DailyReport>, front: seq<DailyReport>, x: DailyReport, r: DailyReport)
    requires StrictlyDescending(s) && front <= s && x in front && r in s && r !in front
    ensures Precedes(x, r)
  {
    var i :| 0 <= i < |front| && front[i] == x;
    var j :| 0 <= j < |s| && s[j] == r;
    forall k | 0 <= k < |front| ensures s[k] != r { assert front[k] in front; }
    assert s[i] == x;
  }

  lemma EligibleIsSelected(q: Query, after: Option<Key>)
    ensures forall r :: Selected(q, after)(r) <==> Eligible(q, after, r)
  {
  }

  lemma FeedCount(t: ReportTable, q: Query, after: Option<Key>)
    ensures |FeedAfter(t.rows, q, after)| == |Filter(t.rows, Selected(q, after))|
  {
    SortPermutes(Filter(t.rows, Selected(q, after)), NewestFirst);
  }

  /** A page is the feed after the key, or the front of it with a cursor. */
  lemma PageShape(t: ReportTable, q: Query, after: Option<Key>)
    requires GoodTable(t) && q.pageSize > 0
    ensures var s, page := FeedAfter(t.rows, q, after), PageAfter(t, q, after);
      if |s| <= q.pageSize then page == Page(s, None)
      else
        var last := s[q.pageSize - 1];
        Printable(last.date) && page == Page(s[..q.pageSize], Some(PrintCursor(KeyOf(last))))
  {
    hide PrintCursor, FeedAfter, NewestFirst, Printable;
    var s, n := FeedAfter(t.rows, q, after), q.pageSize;
    FeedFacts(t, q, after);
    if |s| > n {
      var last := s[n - 1];
      assert last in s && last in t.rows;
      assert last.pkid != 0;
      var rows := if |s| > n + 1 then s[..n + 1] else s;
      assert rows[..n] == s[..n] && rows[n - 1] == last == s[..n][n - 1];
    }
  }

  lemma PageCovers(s: seq<DailyReport>, n: nat, r: DailyReport)
    requires StrictlyDescending(s) && 0 < n < |s| && r in s
    ensures r in s[..n] || Below(KeyOf(r), KeyOf(s[n - 1]))
  {
    var i :| 0 <= i < |s| && s[i] == r;
    if i < n { assert s[..n][i] == r; }
  }

  function CursorKey(cursor: Option<string>): Result<Option<Key>, CursorError> {
    if cursor.None? || cursor.value == "" then Ok(None)
    else match ParseCursor(cursor.value) case Err(e) => Err(e) case Ok(k) => Ok(Some(k))
  }

  lemma ItemsOfWalk(tables: seq<ReportTable>, q: Query, cursor: Option<string>, after: Option<Key>)
    requires Evolution(tables) && q.pageSize > 0 && tables != []
    requires CursorKey(cursor) == Ok(after)
    ensures var page := PageAfter(tables[0], q, after);
      var rest := if page.nextCursor.None? then [] else Walk(tables[1..], q, page.nextCursor);
      Walk(tables, q, cursor) == [page] + rest && Items(Walk(tables, q, cursor)) == page.items + Items(rest)
  {
    hide PageAfter, PrintCursor, FeedAfter, NatToString, Pad, CursorShape;
    var page := PageAfter(tables[0], q, after);
    var rest := if page.nextCursor.None? then [] else Walk(tables[1..], q, page.nextCursor);
    assert ([page] + rest)[1..] == rest;
  }

  /** Nothing a walk returns is out of order, whatever is written between its pages. */
  lemma {:induction false} WalkDescends(tables: seq<ReportTable>, q: Query, cursor: Option<string>, after: Option<Key>)
    requires Evolution(tables) && q.pageSize > 0
    requires CursorKey(cursor) == Ok(after)
    ensures StrictlyDescending(Items(Walk(tables, q, cursor)))
    ensures after.Some? ==> forall r | r in Items(Walk(tables, q, cursor)) :: Below(KeyOf(r), after.value)
  {
    hide PageAfter, ParseCursor, PrintCursor, FeedAfter, NatToString, Pad, CursorShape;
    if tables != [] {
      var page := PageAfter(tables[0], q, after);
      ItemsOfWalk(tables, q, cursor, after);
      PageFacts(tables[0], q, after, page);
      if page.nextCursor.Some? {
        var key := KeyOf(page.items[|page.items| - 1]);
        WalkDescends(tables[1..], q, page.nextCursor, Some(key));
        JoinDescends(page.items, Items(Walk(tables[1..], q, page.nextCursor)));
      }
    }
  }

  lemma JoinDescends(a: seq<DailyReport>, b: seq<DailyReport>)
    requires a != [] && StrictlyDescending(a) && StrictlyDescending(b)
    requires forall r | r in b :: Below(KeyOf(r), KeyOf(a[|a| - 1]))
    ensures StrictlyDescending(a + b)
  {
    forall i, j | 0 <= i < j < |a + b| ensures Below(KeyOf((a + b)[j]), KeyOf((a + b)[i])) {
      if i < |a| <= j { assert b[j - |a|] in b; }
    }
  }

  lemma {:induction false} ItemComesFromTable(tables: seq<ReportTable>, q: Query, cursor: Option<string>,
          after: Option<Key>, r: DailyReport)
    requires Evolution(tables) && q.pageSize > 0
    requires CursorKey(cursor) == Ok(after)
    requires r in Items(Walk(tables, q, cursor))
    ensures exists i :: 0 <= i < |tables| && r in tables[i].rows && InFeed(q, r)
  {
    hide PageAfter, ParseCursor, PrintCursor, FeedAfter, NatToString, Pad, CursorShape;
    var page := PageAfter(tables[0], q, after);
    ItemsOfWalk(tables, q, cursor, after);
    PageFacts(tables[0], q, after, page);
    if r in page.items {
      assert r in tables[0].rows;
    } else {
      ItemComesFromTable(tables[1..], q, page.nextCursor, Some(KeyOf(page.items[|page.items| - 1])), r);
      var i :| 0 <= i < |tables[1..]| && r in tables[1..][i].rows && InFeed(q, r);
      assert r in tables[i + 1].rows;
    }
  }

  lemma EvolvesHere(t: ReportTable, u: ReportTable, r: DailyReport)
    requires (t == u || Evolves(t, u)) && r in u.rows && r.pkid < t.nextPkid
    ensures exists o :: o in t.rows && o.pkid == r.pkid && SameIdentity(o, r)
  {
    if t == u { assert r in t.rows && SameIdentity(r, r); }
  }

  lemma {:induction false} EvolvesAcross(tables: seq<ReportTable>, i: nat, j: nat)
    requires Evolution(tables) && i <= j < |tables|
    ensures i == j || Evolves(tables[i], tables[j])
    decreases j
  {
    if i < j {
      EvolvesAcross(tables, i, j - 1);
      assert Evolves(tables[j - 1], tables[j - 1 + 1]);
      if i < j - 1 { EvolvesTransitive(tables[i], tables[j - 1], tables[j]); }
    }
  }

  lemma SamePkidSameDate(tables: seq<ReportTable>, i: nat, a: DailyReport, j: nat, b: DailyReport)
    requires Evolution(tables) && i <= j < |tables|
    requires a in tables[i].rows && b in tables[j].rows && a.pkid == b.pkid
    ensures a.date == b.date && a.studentPkid == b.studentPkid && a.schoolPkid == b.schoolPkid
  {
    EvolvesAcross(tables, i, j);
    assert GoodTable(tables[i]);
    EvolvesHere(tables[i], tables[j], b);
    var o :| o in tables[i].rows && o.pkid == b.pkid && SameIdentity(o, b);
    SamePkidSameRow(tables[i], a, o);
  }

  /** No report is returned twice in a walk. */
  lemma WalkNoDuplicates(tables: seq<ReportTable>, q: Query, i: nat, j: nat)
    requires Evolution(tables) && q.pageSize > 0
    requires i < j < |Items(Walk(tables, q, None))|
    ensures Items(Walk(tables, q, None))[i].pkid != Items(Walk(tables, q, None))[j].pkid
    ensures Below(KeyOf(Items(Walk(tables, q, None))[j]), KeyOf(Items(Walk(tables, q, None))[i]))
  {
    var items := Items(Walk(tables, q, None));
    WalkDescends(tables, q, None, None);
    assert items[i] in items && items[j] in items;
    ItemComesFromTable(tables, q, None, None, items[i]);
    ItemComesFromTable(tables, q, None, None, items[j]);
    var a :| 0 <= a < |tables| && items[i] in tables[a].rows;
    var b :| 0 <= b < |tables| && items[j] in tables[b].rows;
    if items[i].pkid == items[j].pkid {
      if a <= b {
        SamePkidSameDate(tables, a, items[i], b, items[j]);
      } else {
        SamePkidSameDate(tables, b, items[j], a, items[i]);
      }
      assert false;
    }
  }

  /** The report with this pkid is in the feed at every page of the walk. */
  ghost predicate AlwaysInFeed(tables: seq<ReportTable>, q: Query, pkid: nat) {
    forall i | 0 <= i < |tables| :: exists r :: r in tables[i].rows && r.pkid == pkid && InFeed(q, r)
  }

  lemma FinishedStep(tables: seq<ReportTable>, q: Query, cursor: Option<string>, after: Option<Key>)
    requires Evolution(tables) && q.pageSize > 0 && tables != []
    requires CursorKey(cursor) == Ok(after)
    requires Finished(Walk(tables, q, cursor)) && PageAfter(tables[0], q, after).nextCursor.Some?
    ensures var next := PageAfter(tables[0], q, after).nextCursor;
      var rest := Walk(tables[1..], q, next);
      |Walk(tables, q, cursor)| == |rest| + 1 && Finished(rest)
  {
    hide PageAfter, ParseCursor, PrintCursor, FeedAfter, NatToString, Pad, CursorShape, GetTimeline, Walk, Items;
    ItemsOfWalk(tables, q, cursor, after);
    var walk, page := Walk(tables, q, cursor), PageAfter(tables[0], q, after);
    var rest := Walk(tables[1..], q, page.nextCursor);
    assert walk == [page] + rest;
    assert rest != [] ==> walk[|walk| - 1] == rest[|rest| - 1];
  }

  lemma AlwaysTail(tables: seq<ReportTable>, n: nat, q: Query, pkid: nat)
    requires n + 1 <= |tables| && AlwaysInFeed(tables[..n + 1], q, pkid)
    ensures AlwaysInFeed(tables[1..][..n], q, pkid)
    ensures n > 0 ==> exists r :: r in tables[1].rows && r.pkid == pkid && InFeed(q, r)
  {
    hide InFeed;
    forall i | 0 <= i < n ensures exists r :: r in tables[1..][..n][i].rows && r.pkid == pkid && InFeed(q, r) {
      assert tables[1..][..n][i] == tables[..n + 1][i + 1];
    }
    if n > 0 { assert tables[1] == tables[1..][..n][0]; }
  }

  lemma {:induction false} WalkFinds(tables: seq<ReportTable>, q: Query, cursor: Option<string>, after: Option<Key>,
          r: DailyReport)
    requires Evolution(tables) && q.pageSize > 0 && tables != []
    requires CursorKey(cursor) == Ok(after)
    requires Finished(Walk(tables, q, cursor))
    requires AlwaysInFeed(tables[..|Walk(tables, q, cursor)|], q, r.pkid)
    requires r in tables[0].rows && InFeed(q, r) && (after.Some? ==> Below(KeyOf(r), after.value))
    ensures exists x :: x in Items(Walk(tables, q, cursor)) && x.pkid == r.pkid
  {
    hide PageAfter, ParseCursor, PrintCursor, FeedAfter, NatToString, Pad, CursorShape, Walk, AlwaysInFeed, Items;
    var page := PageAfter(tables[0], q, after);
    ItemsOfWalk(tables, q, cursor, after);
    PageFacts(tables[0], q, after, page);
    if r in page.items {
      assert r in Items(Walk(tables, q, cursor));
    } else {
      FinishedStep(tables, q, cursor, after);
      var rest := Walk(tables[1..], q, page.nextCursor);
      AlwaysTail(tables, |rest|, q, r.pkid);
      var s :| s in tables[1].rows && s.pkid == r.pkid && InFeed(q, s);
      SamePkidSameDate(tables, 0, r, 1, s);
      WalkFinds(tables[1..], q, page.nextCursor, Some(KeyOf(page.items[|page.items| - 1])), s);
    }
  }

  /** A report visible throughout a finished walk is returned in it, exactly once. */
  lemma WalkComplete(tables: seq<ReportTable>, q: Query, pkid: nat)
    requires Evolution(tables) && q.pageSize > 0
    requires Finished(Walk(tables, q, None))
    requires AlwaysInFeed(tables[..|Walk(tables, q, None)|], q, pkid)
    ensures exists i ::
      && 0 <= i < |Items(Walk(tables, q, None))|
      && Items(Walk(tables, q, None))[i].pkid == pkid
      && forall j | 0 <= j < |Items(Walk(tables, q, None))| && j != i :: Items(Walk(tables, q, None))[j].pkid != pkid
  {
    hide PageAfter, ParseCursor, PrintCursor, FeedAfter, NatToString, Pad, CursorShape;
    var walk := Walk(tables, q, None);
    var items := Items(walk);
    assert tables[..|walk|][0] == tables[0];
    var r :| r in tables[0].rows && r.pkid == pkid && InFeed(q, r);
    WalkFinds(tables, q, None, None, r);
    var x :| x in items && x.pkid == pkid;
    var i :| 0 <= i < |items| && items[i] == x;
    forall j | 0 <= j < |items| && j != i ensures items[j].pkid != pkid {
      if i < j { WalkNoDuplicates(tables, q, i, j); } else { WalkNoDuplicates(tables, q, j, i); }
    }
  }

  // ── a walk over a table nobody writes to ─────────────────────────────────

  function BelowKey(k: Key): DailyReport -> bool { (r: DailyReport) => Below(KeyOf(r), k) }

  lemma FeedBelow(t: ReportTable, q: Query, after: Option<Key>, k: Key)
    requires after.Some? ==> Below(k, after.value)
    ensures FeedAfter(t.rows, q, Some(k)) == Filter(FeedAfter(t.rows, q, after), BelowKey(k))
  {
    FeedOrder();
    SortFilter(Filter(t.rows, Selected(q, after)), NewestFirst, BelowKey(k));
    FilterNested(t.rows, Selected(q, after), BelowKey(k), Selected(q, Some(k)));
  }

  /** The feed after the n-th row is the rest of the feed. */
  lemma FeedSuffix(t: ReportTable, q: Query, after: Option<Key>, n: nat)
    requires ValidTable(t) && 0 < n <= |FeedAfter(t.rows, q, after)|
    ensures FeedAfter(t.rows, q, Some(KeyOf(FeedAfter(t.rows, q, after)[n - 1]))) == FeedAfter(t.rows, q, after)[n..]
  {
    hide FeedAfter;
    var s := FeedAfter(t.rows, q, after);
    var k := KeyOf(s[n - 1]);
    FeedFacts(t, q, after);
    assert s[n - 1] in s && Selected(q, after)(s[n - 1]);
    FeedBelow(t, q, after, k);
    DescendingSuffix(s, n);
  }

  lemma DescendingSuffix(s: seq<DailyReport>, n: nat)
    requires StrictlyDescending(s) && 0 < n <= |s|
    ensures Filter(s, BelowKey(KeyOf(s[n - 1]))) == s[n..]
  {
    hide Filter;
    var k := KeyOf(s[n - 1]);
    assert s == s[..n] + s[n..];
    FilterConcat(s[..n], s[n..], BelowKey(k));
    FilterNone(s[..n], BelowKey(k));
    FilterAll(s[n..], BelowKey(k));
  }

  /** Over an unchanging table the pages join up to the whole feed, and the walk
      ends with a null cursor. */
  lemma {:induction false} QuietWalk(tables: seq<ReportTable>, t: ReportTable, q: Query, cursor: Option<string>,
          after: Option<Key>)
    requires GoodTable(t) && q.pageSize > 0
    requires forall i | 0 <= i < |tables| :: tables[i] == t
    requires CursorKey(cursor) == Ok(after)
    requires |tables| > |FeedAfter(t.rows, q, after)|
    ensures Finished(Walk(tables, q, cursor))
    ensures Items(Walk(tables, q, cursor)) == FeedAfter(t.rows, q, after)
    decreases |tables|
  {
    hide ParseCursor, PrintCursor, FeedAfter, NatToString, Pad, CursorShape, Walk, PageAfter, Below;
    var s := FeedAfter(t.rows, q, after);
    var page := PageAfter(t, q, after);
    QuietEvolution(tables, t);
    ItemsOfWalk(tables, q, cursor, after);
    PageFacts(t, q, after, page);
    PageIsPrefix(t, q, after);
    if page.nextCursor.Some? {
      FeedSuffix(t, q, after, q.pageSize);
      QuietWalk(tables[1..], t, q, page.nextCursor, Some(KeyOf(s[q.pageSize - 1])));
      assert s == s[..q.pageSize] + s[q.pageSize..];
      var rest := Walk(tables[1..], q, page.nextCursor);
      assert ([page] + rest)[|rest|] == rest[|rest| - 1];
    }
  }

  lemma PageIsPrefix(t: ReportTable, q: Query, after: Option<Key>)
    requires GoodTable(t) && q.pageSize > 0
    ensures var s, page := FeedAfter(t.rows, q, after), PageAfter(t, q, after);
      if |s| > q.pageSize then page.items == s[..q.pageSize] && page.nextCursor.Some?
      else page == Page(s, None)
  {
    hide ParseCursor, PrintCursor, FeedAfter, NatToString, Pad, CursorShape;
    var s := FeedAfter(t.rows, q, after);
    FeedFacts(t, q, after);
    if |s| > q.pageSize { assert s[q.pageSize - 1] in s; }
  }

  lemma QuietEvolution(tables: seq<ReportTable>, t: ReportTable)
    requires GoodTable(t)
    requires forall i | 0 <= i < |tables| :: tables[i] == t
    ensures Evolution(tables)
  {
    assert Evolves(t, t) by {
      forall r | r in t.rows && r.pkid < t.nextPkid
        ensures exists o :: o in t.rows && o.pkid == r.pkid && SameIdentity(o, r)
      {
        assert r in t.rows && SameIdentity(r, r);
      }
    }
  }
}
