/** The list filter: rewriting a where clause for a text search, and page links. */
module ListFilter {
  import opened Collections
  import opened DecimalText

  // ── where clauses and what they select ───────────────────────────────────

  /** A condition on a column, or on the rows a relation leads to. */
  datatype Cond = Equals(value: string) | ILike(pattern: string) | Nested(fields: seq<Field>)

  datatype Field = Field(key: string, cond: Cond)

  /** Either no clause, one object, or a list of objects that are alternatives. */
  datatype Where = Anything | One(fields: seq<Field>) | AnyOf(alternatives: seq<seq<Field>>)

  /** A row with its columns and the rows its relations lead to. */
  datatype Entity = Entity(columns: map<string, string>, relations: map<string, seq<Entity>>)

  function Related(e: Entity, key: string): seq<Entity> {
    if key in e.relations then e.relations[key] else []
  }

  /** `like` stands for the case-insensitive pattern match of the database. */
  predicate CondHolds(e: Entity, key: string, c: Cond, like: (string, string) -> bool)
    decreases c, 0
  {
    match c
    case Equals(v) => key in e.columns && e.columns[key] == v
    case ILike(p) => key in e.columns && like(p, e.columns[key])
    case Nested(fields) => exists i :: 0 <= i < |Related(e, key)| && AllHold(Related(e, key)[i], fields, like)
  }

  predicate AllHold(e: Entity, fields: seq<Field>, like: (string, string) -> bool)
    decreases fields, 1
  {
    forall i | 0 <= i < |fields| :: CondHolds(e, fields[i].key, fields[i].cond, like)
  }

  /** A list without alternatives adds no condition at all. */
  predicate Selects(e: Entity, w: Where, like: (string, string) -> bool) {
    match w
    case Anything => true
    case One(fields) => AllHold(e, fields, like)
    case AnyOf(ws) => ws == [] || exists i :: 0 <= i < |ws| && AllHold(e, ws[i], like)
  }

  // ── the rewrite ──────────────────────────────────────────────────────────

  /** split('.') */
  function Split(s: string): (keys: seq<string>)
    ensures keys != []
  {
    if s == [] then [""]
    else
      var rest := Split(s[1..]);
      if s[0] == '.' then [""] + rest else [[s[0]] + rest[0]] + rest[1..]
  }

  function Pattern(search: string): string { "%" + search + "%" }

  function PathCond(keys: seq<string>, pattern: string): Cond
    requires keys != []
  {
    if |keys| == 1 then ILike(pattern) else Nested([Field(keys[1], PathCond(keys[1..], pattern))])
  }

  /** The object a dotted search field turns into. */
  function PathField(keys: seq<string>, pattern: string): Field
    requires keys != []
  {
    Field(keys[0], PathCond(keys, pattern))
  }

  predicate HasKey(fields: seq<Field>, key: string) { exists i :: 0 <= i < |fields| && fields[i].key == key }

  function Without(fields: seq<Field>, key: string): seq<Field> {
    Filter(fields, (f: Field) => f.key != key)
  }

  /** { ...base, [key]: cond }: an own key of the base is overwritten. */
  function Spread(base: seq<Field>, f: Field): seq<Field> { Without(base, f.key) + [f] }

  function Alternative(base: seq<Field>, field: string, search: string): seq<Field> {
    Spread(base, PathField(Split(field), Pattern(search)))
  }

  function Alternatives(base: seq<Field>, searchFields: seq<string>, search: string): (ws: seq<seq<Field>>)
    ensures |ws| == |searchFields|
    ensures forall i | 0 <= i < |ws| :: ws[i] == Alternative(base, searchFields[i], search)
  {
    seq(|searchFields|, i requires 0 <= i < |searchFields| => Alternative(base, searchFields[i], search))
  }

  /** What `...base` puts into an object: the entries of an object, the indexed
      entries of a list, and nothing for undefined. */
  function BaseFields(w: Where): seq<Field> {
    match w
    case Anything => []
    case One(fields) => fields
    case AnyOf(ws) => seq(|ws|, i requires 0 <= i < |ws| => Field(NatToString(i), Nested(ws[i])))
  }

  /** An empty search text leaves the clause alone. */
  function Rewritten(w: Where, searchFields: seq<string>, search: string): Where {
    if search == "" then w else AnyOf(Alternatives(BaseFields(w), searchFields, search))
  }

  // ── what a search field means ────────────────────────────────────────────

  /** Some row at the end of the path has the text in its column. */
  predicate Reaches(e: Entity, keys: seq<string>, pattern: string, like: (string, string) -> bool)
    requires keys != []
    decreases |keys|
  {
    if |keys| == 1 then keys[0] in e.columns && like(pattern, e.columns[keys[0]])
    else exists i :: 0 <= i < |Related(e, keys[0])| && Reaches(Related(e, keys[0])[i], keys[1..], pattern, like)
  }

  lemma {:induction false} PathMeansReach(e: Entity, keys: seq<string>, pattern: string, like: (string, string) -> bool)
    requires keys != []
    ensures CondHolds(e, keys[0], PathCond(keys, pattern), like) <==> Reaches(e, keys, pattern, like)
    decreases |keys|
  {
    if |keys| > 1 {
      var c := PathCond(keys, pattern);
      var rows := Related(e, keys[0]);
      forall i | 0 <= i < |rows|
        ensures AllHold(rows[i], c.fields, like) <==> Reaches(rows[i], keys[1..], pattern, like)
      {
        PathMeansReach(rows[i], keys[1..], pattern, like);
        assert c.fields[0] == Field(keys[1], PathCond(keys[1..], pattern));
      }
    }
  }

  lemma SpreadHolds(e: Entity, base: seq<Field>, f: Field, like: (string, string) -> bool)
    ensures AllHold(e, Spread(base, f), like)
      <==> AllHold(e, Without(base, f.key), like) && CondHolds(e, f.key, f.cond, like)
  {
    var rest := Without(base, f.key);
    var s := Spread(base, f);
    if AllHold(e, s, like) {
      forall i | 0 <= i < |rest| ensures CondHolds(e, rest[i].key, rest[i].cond, like) { assert s[i] == rest[i]; }
      assert s[|rest|] == f;
    }
  }

  predicate Matches(e: Entity, field: string, search: string, like: (string, string) -> bool) {
    Reaches(e, Split(field), Pattern(search), like)
  }

  /** What the rewritten clause selects, whatever the fields: the rows that match
      some search field and the base without the condition under that field's
      first key; without search fields it selects every row of the table. */
  lemma RewriteExactly(e: Entity, w: Where, searchFields: seq<string>, search: string, like: (string, string) -> bool)
    requires search != ""
    ensures Selects(e, Rewritten(w, searchFields, search), like)
       <==> (searchFields == []
             || exists i ::
                  && 0 <= i < |searchFields| && Matches(e, searchFields[i], search, like)
                  && AllHold(e, Without(BaseFields(w), Split(searchFields[i])[0]), like))
  {
    hide Split, Pattern, Reaches, AllHold, PathCond, Spread;
    var ws := Alternatives(BaseFields(w), searchFields, search);
    forall i | 0 <= i < |ws|
      ensures AllHold(e, ws[i], like)
         <==> && Matches(e, searchFields[i], search, like)
              && AllHold(e, Without(BaseFields(w), Split(searchFields[i])[0]), like)
    {
      var keys := Split(searchFields[i]);
      SpreadHolds(e, BaseFields(w), PathField(keys, Pattern(search)), like);
      PathMeansReach(e, keys, Pattern(search), like);
    }
  }

  /** When no search field starts with a key of the base, searching narrows the
      base: a row is selected exactly when it meets the base and matches some field. */
  lemma SearchKeepsScope(e: Entity, base: seq<Field>, searchFields: seq<string>, search: string,
          like: (string, string) -> bool)
    requires search != "" && searchFields != []
    requires forall f | f in searchFields :: !HasKey(base, Split(f)[0])
    ensures Selects(e, Rewritten(One(base), searchFields, search), like)
       <==> AllHold(e, base, like) && exists i :: 0 <= i < |searchFields| && Matches(e, searchFields[i], search, like)
  {
    hide Split, Matches, Rewritten, Selects, AllHold;
    RewriteExactly(e, One(base), searchFields, search, like);
    forall i | 0 <= i < |searchFields| ensures Without(base, Split(searchFields[i])[0]) == base {
      assert searchFields[i] in searchFields;
      NothingDropped(base, Split(searchFields[i])[0]);
    }
  }

  // ── what the database accepts ────────────────────────────────────────────

  datatype ColumnType = TextColumn | IntColumn | DateColumn

  /** A table with the types of its columns and the tables its relations lead to. */
  datatype Schema = Schema(columns: map<string, ColumnType>, relations: map<string, Schema>)

  /** Every key must be a column or relation, and a pattern wants a text column. */
  predicate Accepts(t: Schema, key: string, c: Cond)
    decreases c, 0
  {
    match c
    case Equals(_) => key in t.columns
    case ILike(_) => key in t.columns && t.columns[key] == TextColumn
    case Nested(fields) => key in t.relations && AcceptsAll(t.relations[key], fields)
  }

  predicate AcceptsAll(t: Schema, fields: seq<Field>)
    decreases fields, 1
  {
    forall i | 0 <= i < |fields| :: Accepts(t, fields[i].key, fields[i].cond)
  }

  predicate Accepted(t: Schema, w: Where) {
    match w
    case Anything => true
    case One(fields) => AcceptsAll(t, fields)
    case AnyOf(ws) => forall i | 0 <= i < |ws| :: AcceptsAll(t, ws[i])
  }

  /** The keys lead through relations to a text column. */
  predicate LeadsToText(t: Schema, keys: seq<string>)
    requires keys != []
  {
    if |keys| == 1 then keys[0] in t.columns && t.columns[keys[0]] == TextColumn
    else keys[0] in t.relations && LeadsToText(t.relations[keys[0]], keys[1..])
  }

  lemma {:induction false} PathAccepted(t: Schema, keys: seq<string>, pattern: string)
    requires keys != []
    ensures Accepts(t, keys[0], PathCond(keys, pattern)) <==> LeadsToText(t, keys)
    decreases |keys|
  {
    if |keys| > 1 && keys[0] in t.relations {
      var next, rest := t.relations[keys[0]], keys[1..];
      PathAccepted(next, rest, pattern);
      var inner := Field(keys[1], PathCond(rest, pattern));
      assert AcceptsAll(next, [inner]) <==> Accepts(next, inner.key, inner.cond) by {
        assert [inner][0] == inner;
      }
    }
  }

  lemma SpreadAccepted(t: Schema, base: seq<Field>, f: Field)
    ensures AcceptsAll(t, Spread(base, f)) <==> AcceptsAll(t, Without(base, f.key)) && Accepts(t, f.key, f.cond)
  {
    var rest, s := Without(base, f.key), Spread(base, f);
    if AcceptsAll(t, s) {
      forall i | 0 <= i < |rest| ensures Accepts(t, rest[i].key, rest[i].cond) { assert s[i] == rest[i]; }
      assert s[|rest|] == f;
    }
  }

  /** The base that is left beside each search field is accepted. */
  predicate BasesAccepted(t: Schema, w: Where, searchFields: seq<string>) {
    forall i | 0 <= i < |searchFields| :: AcceptsAll(t, Without(BaseFields(w), Split(searchFields[i])[0]))
  }

  /** A search is answered exactly when every search field leads to a text column
      and nothing else in the clause is refused; one other column and the whole
      query fails, whatever is searched for. */
  lemma SearchAnswered(t: Schema, w: Where, searchFields: seq<string>, search: string)
    requires search != ""
    ensures Accepted(t, Rewritten(w, searchFields, search))
       <==> && BasesAccepted(t, w, searchFields)
            && forall i | 0 <= i < |searchFields| :: LeadsToText(t, Split(searchFields[i]))
  {
    hide Split, Pattern, AcceptsAll, PathCond, Spread, LeadsToText;
    var ws := Alternatives(BaseFields(w), searchFields, search);
    forall i | 0 <= i < |ws|
      ensures AcceptsAll(t, ws[i])
         <==> && AcceptsAll(t, Without(BaseFields(w), Split(searchFields[i])[0]))
              && LeadsToText(t, Split(searchFields[i]))
    {
      var keys := Split(searchFields[i]);
      SpreadAccepted(t, BaseFields(w), PathField(keys, Pattern(search)));
      PathAccepted(t, keys, Pattern(search));
    }
  }

  // ── the lists of the program ─────────────────────────────────────────────

  /** The search fields of a list with the types of their columns, and the keys
      its base clause may have. */
  datatype Listing = Listing(name: string, searchFields: seq<string>, types: seq<ColumnType>, baseKeys: seq<string>)

  const LISTINGS: seq<Listing> := [
    Listing("staff", ["position"], [TextColumn], ["school"]),
    Listing("parents", ["occupation", "phoneNumber", "address"], [TextColumn, TextColumn, TextColumn], ["school"]),
    Listing("users", ["firstName", "lastName", "userName", "email"],
            [TextColumn, TextColumn, TextColumn, TextColumn], ["schools"]),
    Listing("classrooms", ["name", "ageGroup", "capacity"], [TextColumn, TextColumn, IntColumn], ["school", "branch"]),
    Listing("students", ["fullName", "dateOfBirth", "gender"], [TextColumn, DateColumn, TextColumn],
            ["school", "branch"]),
    Listing("learning areas", ["name", "description"], [TextColumn, TextColumn], ["school"]),
    Listing("activities", ["name", "description"], [TextColumn, TextColumn], ["school"]),
    Listing("provinces", ["name"], [TextColumn], ["pkid"]),
    Listing("permissions", ["name", "slug"], [TextColumn, TextColumn], []),
    Listing("roles, templates, grading levels and the lower locations", ["name"], [TextColumn], [])]

  predicate PlainFields(l: Listing) {
    && l.searchFields != [] && |l.types| == |l.searchFields|
    && forall i | 0 <= i < |l.searchFields| :: '.' !in l.searchFields[i] && l.searchFields[i] !in l.baseKeys
  }

  lemma ListingsArePlain()
    ensures forall i | 0 <= i < |LISTINGS| :: PlainFields(LISTINGS[i])
  {
  }

  /** Every list of the program searches plain columns that are no keys of its
      base, so a search selects exactly the rows that meet the base and match some
      field, in each list the database answers. */
  lemma EveryListKeepsScope(l: Listing, e: Entity, base: seq<Field>, search: string, like: (string, string) -> bool)
    requires l in LISTINGS && search != ""
    requires forall i | 0 <= i < |base| :: base[i].key in l.baseKeys
    ensures Selects(e, Rewritten(One(base), l.searchFields, search), like)
       <==> && AllHold(e, base, like)
            && exists i :: 0 <= i < |l.searchFields| && Matches(e, l.searchFields[i], search, like)
  {
    hide LISTINGS, Selects, AllHold, Matches, Rewritten, Split;
    ListingsArePlain();
    forall f | f in l.searchFields ensures !HasKey(base, Split(f)[0]) { SplitPlain(f); }
    SearchKeepsScope(e, base, l.searchFields, search, like);
  }

  predicate AllText(l: Listing) { forall i | 0 <= i < |l.types| :: l.types[i] == TextColumn }

  /** The search columns of the list have these types in the table. */
  predicate TypedAs(t: Schema, l: Listing) {
    && |l.types| == |l.searchFields|
    && forall i | 0 <= i < |l.searchFields| ::
         l.searchFields[i] in t.columns && t.columns[l.searchFields[i]] == l.types[i]
  }

  /** Which of the lists answer a search: all of them except the students, whose
      date of birth is a date, and the classrooms, whose capacity is a number. In
      these two every search is refused. */
  lemma ListsAnswerExceptTwo(l: Listing, t: Schema, base: seq<Field>, search: string)
    requires l in LISTINGS && search != "" && TypedAs(t, l) && AcceptsAll(t, base)
    requires forall i | 0 <= i < |base| :: base[i].key in l.baseKeys
    ensures Accepted(t, Rewritten(One(base), l.searchFields, search)) <==> AllText(l)
    ensures AllText(l) <==> l.name != "students" && l.name != "classrooms"
  {
    TextLists();
    hide LISTINGS, AcceptsAll, Rewritten, Split;
    ListingsArePlain();
    SearchAnswered(t, One(base), l.searchFields, search);
    forall i | 0 <= i < |l.searchFields|
      ensures Split(l.searchFields[i]) == [l.searchFields[i]] && Without(base, l.searchFields[i]) == base
    {
      SplitPlain(l.searchFields[i]);
      NothingDropped(base, l.searchFields[i]);
    }
  }

  lemma TextLists()
    ensures forall i | 0 <= i < |LISTINGS| ::
      AllText(LISTINGS[i]) <==> LISTINGS[i].name != "students" && LISTINGS[i].name != "classrooms"
  {
    assert LISTINGS[3].types[2] == IntColumn && LISTINGS[4].types[1] == DateColumn;
  }

  lemma NothingDropped(base: seq<Field>, key: string)
    requires !HasKey(base, key)
    ensures Without(base, key) == base
  {
    FilterAll(base, (f: Field) => f.key != key);
  }

  function ScopedToSchool(id: string): seq<Field> { [Field("school", Nested([Field("id", Equals(id))]))] }

  function RowOfSchool(id: string, name: string): Entity {
    Entity(map[], map["school" := [Entity(map["id" := id, "name" := name], map[])]])
  }

  lemma OutOfScope(like: (string, string) -> bool)
    ensures !AllHold(RowOfSchool("2", "Hill"), ScopedToSchool("1"), like)
  {
    var school := Entity(map["id" := "2", "name" := "Hill"], map[]);
    var inner := [Field("id", Equals("1"))];
    assert !CondHolds(school, "id", Equals("1"), like);
    assert !AllHold(school, inner, like) by { assert inner[0] == Field("id", Equals("1")); }
    assert ScopedToSchool("1")[0] == Field("school", Nested(inner));
  }

  lemma FoundByName(like: (string, string) -> bool)
    requires like(Pattern("Hill"), "Hill")
    ensures Matches(RowOfSchool("2", "Hill"), "school.name", "Hill", like)
  {
    hide Pattern;
    SplitSchoolName();
    assert Reaches(Related(RowOfSchool("2", "Hill"), "school")[0], ["name"], Pattern("Hill"), like);
    assert ["school", "name"][1..] == ["name"];
  }

  /** A field that starts with a base key loses the base condition under it: a
      search by school name in a list scoped to one school reaches other schools. */
  lemma CollisionLosesScope(like: (string, string) -> bool)
    requires like(Pattern("Hill"), "Hill")
    ensures !AllHold(RowOfSchool("2", "Hill"), ScopedToSchool("1"), like)
    ensures Selects(RowOfSchool("2", "Hill"), Rewritten(One(ScopedToSchool("1")), ["school.name"], "Hill"), like)
  {
    hide Pattern, Matches, Rewritten, Selects, RowOfSchool;
    OutOfScope(like);
    FoundByName(like);
    SplitSchoolName();
    assert Without(ScopedToSchool("1"), "school") == [];
    RewriteExactly(RowOfSchool("2", "Hill"), One(ScopedToSchool("1")), ["school.name"], "Hill", like);
    assert Matches(RowOfSchool("2", "Hill"), ["school.name"][0], "Hill", like);
  }

  lemma {:induction false} SplitAtDot(a: string, b: string)
    requires '.' !in a
    ensures Split(a + "." + b) == [a] + Split(b)
  {
    if a == [] {
      assert (a + "." + b)[1..] == b;
    } else {
      assert (a + "." + b)[1..] == a[1..] + "." + b;
      assert a[0] in a;
      SplitAtDot(a[1..], b);
      assert ([a[1..]] + Split(b))[1..] == Split(b);
      assert [a[0]] + a[1..] == a;
    }
  }

  lemma {:induction false} SplitPlain(a: string)
    requires '.' !in a
    ensures Split(a) == [a]
  {
    if a != [] {
      assert a[0] in a;
      SplitPlain(a[1..]);
      assert [a[0]] + a[1..] == a && [a[1..]][1..] == [];
    }
  }

  lemma SplitSchoolName()
    ensures Split("school.name") == ["school", "name"]
  {
    SplitAtDot("school", "name");
    SplitPlain("name");
    assert "school" + "." + "name" == "school.name";
  }

  // ── building the nested object ───────────────────────────────────────────

  /** An object of the filter under construction: it gets one entry, either a
      pattern or another object. */
  class FilterObject {
    var key: string
    var pattern: Option<string>
    var child: FilterObject?

    constructor ()
      ensures pattern == None && child == null
    {
      key, pattern, child := "", None, null;
    }
  }

  /** The objects of the chain spell the keys, each holding the next and the last the pattern. */
  ghost predicate Spells(chain: seq<FilterObject>, keys: seq<string>, pattern: string)
    reads chain
  {
    && |chain| == |keys| && keys != []
    && (forall i | 0 <= i < |chain| :: chain[i].key == keys[i])
    && (forall i | 0 <= i < |chain| - 1 :: chain[i].child == chain[i + 1] && chain[i].pattern == None)
    && chain[|chain| - 1].pattern == Some(pattern)
  }

  /** The condition under the key of the first object of a chain. */
  function CondOf(chain: seq<FilterObject>): Cond
    requires chain != [] && chain[|chain| - 1].pattern.Some?
    reads chain
  {
    if |chain| == 1 then ILike(chain[0].pattern.value)
    else Nested([Field(chain[1].key, CondOf(chain[1..]))])
  }

  lemma {:induction false} SpelledCond(chain: seq<FilterObject>, keys: seq<string>, pattern: string)
    requires Spells(chain, keys, pattern)
    ensures CondOf(chain) == PathCond(keys, pattern)
  {
    if |chain| > 1 { SpelledCond(chain[1..], keys[1..], pattern); }
  }

  /** Walks down the keys, hanging each new object into the current one. */
  method BuildFilter(keys: seq<string>, pattern: string) returns (result: FilterObject, chain: seq<FilterObject>)
    requires keys != []
    ensures Spells(chain, keys, pattern) && result == chain[0] && fresh(chain)
    ensures Field(result.key, CondOf(chain)) == PathField(keys, pattern)
  {
    result := new FilterObject();
    var current := result;
    chain := [result];
    for idx := 0 to |keys| - 1
      invariant |chain| == idx + 1 && current == chain[idx] && result == chain[0]
      invariant fresh(chain)
      invariant forall i, j | 0 <= i < j < |chain| :: chain[i] != chain[j]
      invariant forall i | 0 <= i < idx ::
        chain[i].key == keys[i] && chain[i].child == chain[i + 1] && chain[i].pattern == None
      invariant current.pattern == None
    {
      var next := new FilterObject();
      current.key := keys[idx];
      current.child := next;
      current := next;
      chain := chain + [next];
    }
    current.key := keys[|keys| - 1];
    current.pattern := Some(pattern);
    SpelledCond(chain, keys, pattern);
  }

  // ── pages ────────────────────────────────────────────────────────────────

  datatype Query = Query(page: nat, limit: nat, orderBy: Option<string>, search: string)

  datatype PageResponse = PageResponse(
    items: seq<Entity>, count: nat, pages: nat, previousPage: Option<nat>, page: nat, nextPage: Option<nat>, limit: nat)

  /** Math.ceil(count / limit). */
  function PageCount(count: nat, limit: nat): nat
    requires limit > 0
  {
    (count + limit - 1) / limit
  }

  predicate MorePages(count: nat, limit: nat, page: nat)
    requires limit > 0
  {
    count as real / limit as real > page as real
  }

  function Slice<T>(rows: seq<T>, skip: nat, take: nat): seq<T> {
    if skip >= |rows| then [] else if skip + take >= |rows| then rows[skip..] else rows[skip..skip + take]
  }

  function PageAt(selected: seq<Entity>, page: nat, limit: nat): PageResponse
    requires page > 0 && limit > 0
  {
    PageResponse(Slice(selected, (page - 1) * limit, limit), |selected|, PageCount(|selected|, limit),
                 if page > 1 then Some(page - 1) else None, page,
                 if MorePages(|selected|, limit, page) then Some(page + 1) else None, limit)
  }

  class FindOptions {
    var clause: Where
    var order: Option<string>
    var skip: nat
    var take: nat

    constructor (clause: Where, order: Option<string>)
      ensures this.clause == clause && this.order == order
    {
      this.clause, this.order, skip, take := clause, order, 0, 0;
    }
  }

  function SelectedBy(w: Where, like: (string, string) -> bool): Entity -> bool { (e: Entity) => Selects(e, w, like) }

  /** The rows a page list goes through. */
  function Result(rows: seq<Entity>, w: Where, like: (string, string) -> bool): seq<Entity> {
    Filter(rows, SelectedBy(w, like))
  }

  /** One page, or None when the database refuses the clause. */
  function Answer(t: Schema, w: Where, rows: seq<Entity>, like: (string, string) -> bool, page: nat, limit: nat)
    : Option<PageResponse>
    requires page > 0 && limit > 0
  {
    if Accepted(t, w) then Some(PageAt(Result(rows, w, like), page, limit)) else None
  }

  /** filter: rewrites the options in place and answers one page, unless the query
      is refused. `table` is what the repository holds, in the order asked for. */
  method FilterPage(q: Query, options: FindOptions, searchFields: seq<string>, schema: Schema, table: seq<Entity>,
          like: (string, string) -> bool)
    returns (response: Option<PageResponse>)
    requires q.page > 0 && q.limit > 0
    modifies options
    ensures options.clause == Rewritten(old(options.clause), searchFields, q.search)
    ensures options.order == if q.orderBy.Some? then q.orderBy else old(options.order)
    ensures options.skip == (q.page - 1) * q.limit && options.take == q.limit
    ensures response == Answer(schema, options.clause, table, like, q.page, q.limit)
  {
    if q.orderBy.Some? { options.order := q.orderBy; }
    if q.search != "" {
      var base := BaseFields(options.clause);
      var ws: seq<seq<Field>> := [];
      for i := 0 to |searchFields|
        invariant ws == Alternatives(base, searchFields[..i], q.search)
        invariant unchanged(options`clause)
          && options.order == if q.orderBy.Some? then q.orderBy else old(options.order)
      {
        var keys := Split(searchFields[i]);
        var built, chain := BuildFilter(keys, Pattern(q.search));
        ws := ws + [Spread(base, Field(built.key, CondOf(chain)))];
      }
      assert searchFields[..|searchFields|] == searchFields;
      options.clause := AnyOf(ws);
    }
    options.skip := (q.page - 1) * q.limit;
    options.take := q.limit;
    if !Accepted(schema, options.clause) { return None; }
    var selected := Result(table, options.clause, like);
    response := Some(PageResponse(
      Slice(selected, options.skip, options.take), |selected|, PageCount(|selected|, q.limit),
      if q.page > 1 then Some(q.page - 1) else None, q.page,
      if MorePages(|selected|, q.limit, q.page) then Some(q.page + 1) else None, q.limit));
  }

  /** Without a search the list shows exactly the rows that meet its base: all rows
      without one, those that meet the object, or those that meet some object of a
      list; and it is answered when the columns of the base are there. */
  lemma PlainList(t: Schema, e: Entity, w: Where, searchFields: seq<string>, like: (string, string) -> bool)
    ensures var plain := Rewritten(w, searchFields, "");
      if w.Anything? then Selects(e, plain, like) && Accepted(t, plain)
      else if w.One? then
        (Selects(e, plain, like) <==> AllHold(e, w.fields, like)) && (Accepted(t, plain) <==> AcceptsAll(t, w.fields))
      else
        && (Selects(e, plain, like)
            <==> w.alternatives == []
                 || exists i :: 0 <= i < |w.alternatives| && AllHold(e, w.alternatives[i], like))
        && (Accepted(t, plain) <==> forall i | 0 <= i < |w.alternatives| :: AcceptsAll(t, w.alternatives[i]))
  {
  }

  /** What one page tells: nothing when the clause is refused, otherwise how many
      rows there are, the rows from its skip on, at most `limit` of them, the least
      number of pages that hold all, and links to the pages there are on either side. */
  lemma PageTells(t: Schema, w: Where, rows: seq<Entity>, like: (string, string) -> bool, page: nat, limit: nat)
    requires page > 0 && limit > 0
    ensures var answer, selected := Answer(t, w, rows, like, page, limit), Result(rows, w, like);
      && (answer == None <==> !Accepted(t, w))
      && (answer.Some? ==>
            var p := answer.value;
            && p.count == |selected| && p.page == page && p.limit == limit
            && (p.previousPage == if page == 1 then None else Some(page - 1))
            && (p.nextPage == if page < p.pages then Some(page + 1) else None)
            && p.count <= p.pages * limit && (p.pages > 0 ==> (p.pages - 1) * limit < p.count)
            && |p.items| <= limit
            && (forall i | 0 <= i < |p.items| ::
                  (page - 1) * limit + i < |selected| && p.items[i] == selected[(page - 1) * limit + i])
            && (|p.items| < limit ==> (page - 1) * limit + |p.items| >= |selected|))
  {
    hide Accepted, Result, PageCount, MorePages;
    var selected := Result(rows, w, like);
    NextPageIffBelow(|selected|, limit, page);
    CeilBounds(|selected|, limit);
    if Accepted(t, w) { SliceShows(selected, (page - 1) * limit, limit); }
  }

  lemma SliceShows<T>(rows: seq<T>, skip: nat, take: nat)
    ensures var s := Slice(rows, skip, take);
      && |s| <= take && (forall i | 0 <= i < |s| :: skip + i < |rows| && s[i] == rows[skip + i])
      && (|s| < take ==> skip + |s| >= |rows|)
  {
  }

  function Pupils(): Schema {
    Schema(map["fullName" := TextColumn, "dateOfBirth" := DateColumn, "gender" := TextColumn],
           map["school" := Schema(map["pkid" := IntColumn], map[])])
  }

  function Classrooms(): Schema {
    Schema(map["name" := TextColumn, "ageGroup" := TextColumn, "capacity" := IntColumn],
           map["school" := Schema(map["pkid" := IntColumn], map[])])
  }

  function OfSchool(pkid: string): seq<Field> { [Field("school", Nested([Field("pkid", Equals(pkid))]))] }

  lemma OfSchoolAccepted(t: Schema, pkid: string)
    requires "school" in t.relations && "pkid" in t.relations["school"].columns
    ensures AcceptsAll(t, OfSchool(pkid))
  {
    var inner := [Field("pkid", Equals(pkid))];
    assert AcceptsAll(t.relations["school"], inner);
    assert OfSchool(pkid)[0] == Field("school", Nested(inner));
  }

  /** The list of students: any search at all is refused. */
  lemma StudentSearchRefused(search: string, pkid: string, rows: seq<Entity>, like: (string, string) -> bool,
          page: nat, limit: nat)
    requires search != "" && page > 0 && limit > 0
    ensures var w := Rewritten(One(OfSchool(pkid)), ["fullName", "dateOfBirth", "gender"], search);
      Answer(Pupils(), w, rows, like, page, limit) == None
  {
    hide AcceptsAll, Rewritten;
    OfSchoolAccepted(Pupils(), pkid);
    assert LISTINGS[4] in LISTINGS;
    ListsAnswerExceptTwo(LISTINGS[4], Pupils(), OfSchool(pkid), search);
  }

  /** The list of classrooms: any search at all is refused. */
  lemma ClassroomSearchRefused(search: string, pkid: string, rows: seq<Entity>, like: (string, string) -> bool,
          page: nat, limit: nat)
    requires search != "" && page > 0 && limit > 0
    ensures var w := Rewritten(One(OfSchool(pkid)), ["name", "ageGroup", "capacity"], search);
      Answer(Classrooms(), w, rows, like, page, limit) == None
  {
    hide AcceptsAll, Rewritten;
    OfSchoolAccepted(Classrooms(), pkid);
    assert LISTINGS[3] in LISTINGS;
    ListsAnswerExceptTwo(LISTINGS[3], Classrooms(), OfSchool(pkid), search);
  }

  lemma DivideMore(count: nat, limit: nat, page: nat)
    requires limit > 0
    ensures MorePages(count, limit, page) <==> count > page * limit
  {
    var c, l, p := count as real, limit as real, page as real;
    var x := c / l;
    assert x * l == c;
    assert (page * limit) as real == p * l;
    if x > p {
      Positive(x - p, l);
      assert c - p * l == (x - p) * l;
    } else {
      NonNegative(p - x, l);
      assert p * l - c == (p - x) * l;
    }
  }

  lemma Positive(d: real, l: real)
    requires d > 0.0 && l > 0.0
    ensures d * l > 0.0
  {
  }

  lemma NonNegative(d: real, l: real)
    requires d >= 0.0 && l > 0.0
    ensures d * l >= 0.0
  {
  }

  lemma CeilBounds(count: nat, limit: nat)
    requires limit > 0
    ensures var n := PageCount(count, limit); count <= n * limit && (n > 0 ==> (n - 1) * limit < count)
  {
    var n := PageCount(count, limit);
    assert (count + limit - 1) == limit * n + (count + limit - 1) % limit;
    assert (n - 1) * limit == n * limit - limit;
  }

  lemma MonotoneProduct(a: nat, b: nat, limit: nat)
    requires a <= b
    ensures a * limit <= b * limit
  {
  }

  /** There is a next page exactly when the page is below the page count. */
  lemma NextPageIffBelow(count: nat, limit: nat, page: nat)
    requires limit > 0
    ensures MorePages(count, limit, page) <==> page < PageCount(count, limit)
  {
    var n := PageCount(count, limit);
    DivideMore(count, limit, page);
    CeilBounds(count, limit);
    if page < n { MonotoneProduct(page, n - 1, limit); } else { MonotoneProduct(n, page, limit); }
  }

  /** The pages a client gets from a page on by following nextPage. */
  function WalkFrom(selected: seq<Entity>, limit: nat, page: nat): seq<PageResponse>
    requires limit > 0 && page > 0
    decreases if |selected| > page * limit then |selected| - page * limit else 0,
              if MorePages(|selected|, limit, page) then 1 else 0
  {
    var p := PageAt(selected, page, limit);
    DivideMore(|selected|, limit, page);
    assert (page + 1) * limit == page * limit + limit;
    if p.nextPage.None? then [p] else [p] + WalkFrom(selected, limit, p.nextPage.value)
  }

  function AllItems(pages: seq<PageResponse>): seq<Entity> {
    if pages == [] then [] else pages[0].items + AllItems(pages[1..])
  }

  lemma JoinPages(selected: seq<Entity>, skip: nat, limit: nat, p: PageResponse, rest: seq<PageResponse>)
    requires skip + limit <= |selected| && p.items == selected[skip..skip + limit]
      && AllItems(rest) == selected[skip + limit..]
    ensures AllItems([p] + rest) == selected[skip..]
  {
    assert ([p] + rest)[1..] == rest;
  }

  lemma {:induction false} WalkFromCovers(selected: seq<Entity>, limit: nat, page: nat)
    requires limit > 0 && page > 0 && (page - 1) * limit <= |selected|
    ensures AllItems(WalkFrom(selected, limit, page)) == selected[(page - 1) * limit..]
    ensures var w := WalkFrom(selected, limit, page);
      w != [] && w[|w| - 1].nextPage.None?
      && w[|w| - 1].page == if page < PageCount(|selected|, limit) then PageCount(|selected|, limit) else page
    decreases if |selected| > page * limit then |selected| - page * limit else 0
  {
    hide PageCount, MorePages, AllItems, PageAt;
    var p := PageAt(selected, page, limit);
    PageShows(selected, page, limit);
    if p.nextPage.Some? {
      NextSkip(page, limit);
      WalkFromCovers(selected, limit, page + 1);
      JoinPages(selected, (page - 1) * limit, limit, p, WalkFrom(selected, limit, page + 1));
    } else {
      OnePage(p);
    }
  }

  lemma NextSkip(page: nat, limit: nat)
    requires page > 0
    ensures (page - 1) * limit + limit == page * limit && (page + 1) * limit == page * limit + limit
  {
  }

  lemma OnePage(p: PageResponse)
    ensures AllItems([p]) == p.items
  {
    assert [p][1..] == [];
  }

  /** A page and its link, in terms of the rows it skips. */
  lemma PageShows(selected: seq<Entity>, page: nat, limit: nat)
    requires page > 0 && limit > 0 && (page - 1) * limit <= |selected|
    ensures var p, skip := PageAt(selected, page, limit), (page - 1) * limit;
      && p.page == page
      && (p.nextPage.Some? <==> |selected| > page * limit)
        && (p.nextPage.Some? <==> page < PageCount(|selected|, limit))
      && (p.nextPage.Some? ==> p.nextPage.value == page + 1 && p.items == selected[skip..skip + limit])
      && (p.nextPage.None? ==> p.items == selected[skip..])
  {
    hide MorePages, PageCount;
    DivideMore(|selected|, limit, page);
    NextPageIffBelow(|selected|, limit, page);
    NextSkip(page, limit);
  }

  /** Following nextPage from the first page over an unchanging list shows every
      row exactly once, in order, and ends on the last page. */
  lemma PageWalkCovers(selected: seq<Entity>, limit: nat)
    requires limit > 0
    ensures AllItems(WalkFrom(selected, limit, 1)) == selected
    ensures var w := WalkFrom(selected, limit, 1);
      w != [] && w[|w| - 1].page == if selected == [] then 1 else PageCount(|selected|, limit)
  {
    WalkFromCovers(selected, limit, 1);
    CeilBounds(|selected|, limit);
  }
}
