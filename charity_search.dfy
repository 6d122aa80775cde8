/**
 * The charity search: vetted charities, narrowed by a search text and by a
 * category, counted, ordered by name and cut into a page. SQL `ilike` is a
 * case-insensitive substring test that a NULL column never satisfies; the
 * category enum is given by the set of its member names.
 */
module CharitySearch {
  import opened Wrappers
  import opened Text
  import opened Seqs
  import opened Sorting

  const DefaultPerPage: int := 9

  datatype Charity = Charity(id: nat, name: string, description: Option<string>,
                             location: Option<string>, isVetted: bool, categories: set<string>)

  /** `column.ilike('%' + term + '%')` on a nullable column. */
  predicate ILikeOpt(column: Option<string>, term: string) {
    column.Some? && ContainsIgnoreCase(column.value, term)
  }

  predicate Vetted(c: Charity) {
    c.isVetted
  }

  predicate TextMatch(c: Charity, term: string) {
    ContainsIgnoreCase(c.name, term) || ILikeOpt(c.description, term) || ILikeOpt(c.location, term)
  }

  /** The category filter is applied only for a truthy filter other than
      'all' whose upper-cased form names a member of the enum; the enum
      name is what the charity's categories hold. */
  function CategoryApplied(activeFilter: Option<string>, categoryNames: set<string>): (r: Option<string>)
    ensures r.Some? <==> StrTruthy(activeFilter) && activeFilter.value != "all" && Upper(activeFilter.value) in categoryNames
    ensures r.Some? ==> r.value == Upper(activeFilter.value)
  {
    if StrTruthy(activeFilter) && activeFilter.value != "all" && Upper(activeFilter.value) in categoryNames
    then Some(Upper(activeFilter.value)) else None
  }

  /** A charity is selected when it is vetted, matches a truthy search
      text, and has the applied category. */
  predicate Selected(c: Charity, searchQuery: Option<string>, category: Option<string>) {
    && Vetted(c)
    && (StrTruthy(searchQuery) ==> TextMatch(c, searchQuery.value))
    && (category.Some? ==> category.value in c.categories)
  }

  function SelectedBy(searchQuery: Option<string>, category: Option<string>): Charity -> bool {
    c => Selected(c, searchQuery, category)
  }

  // ---------------------------------------------------------------------
  // ORDER BY name, LIMIT, OFFSET
  // ---------------------------------------------------------------------

  /** Code-point order on strings, as SQLite's default collation. */
  predicate LexLe(a: string, b: string)
    decreases |a|
  {
    a == [] || (b != [] && (a[0] < b[0] || (a[0] == b[0] && LexLe(a[1..], b[1..]))))
  }

  lemma {:induction false} LexLeTotal(a: string, b: string)
    ensures LexLe(a, b) || LexLe(b, a)
    decreases |a|
  {
    if a != [] && b != [] && a[0] == b[0] {
      LexLeTotal(a[1..], b[1..]);
    }
  }

  lemma {:induction false} LexLeTrans(a: string, b: string, c: string)
    requires LexLe(a, b) && LexLe(b, c)
    ensures LexLe(a, c)
    decreases |a|
  {
    if a != [] && a[0] == b[0] && b[0] == c[0] {
      LexLeTrans(a[1..], b[1..], c[1..]);
    }
  }

  predicate NameLe(x: Charity, y: Charity) {
    LexLe(x.name, y.name)
  }

  lemma NameLeTotalPreorder()
    ensures Total(NameLe) && Transitive(NameLe)
  {
    forall x: Charity, y: Charity ensures NameLe(x, y) || NameLe(y, x) {
      LexLeTotal(x.name, y.name);
    }
    forall x: Charity, y: Charity, z: Charity | NameLe(x, y) && NameLe(y, z) ensures NameLe(x, z) {
      LexLeTrans(x.name, y.name, z.name);
    }
  }

  /** `.limit(n).offset(k)` as SQLite runs it: a negative offset starts at
      the beginning and a negative limit takes everything that is left. */
  function Window<T>(s: seq<T>, offset: int, limit: int): (r: seq<T>)
    ensures var start := if offset < 0 then 0 else if offset > |s| then |s| else offset;
      && start + |r| <= |s| && r == s[start..start + |r|]
      && (limit >= 0 ==> |r| == if start + limit <= |s| then limit else |s| - start)
      && (limit < 0 ==> |r| == |s| - start)
  {
    var start := if offset < 0 then 0 else if offset > |s| then |s| else offset;
    var rest := s[start..];
    if limit < 0 || limit >= |rest| then rest else rest[..limit]
  }

  // ---------------------------------------------------------------------
  // search_charities
  // ---------------------------------------------------------------------

  /** All selected charities in name order: the rows the page is cut from. */
  function Ordered(charities: seq<Charity>, searchQuery: Option<string>, category: Option<string>): seq<Charity> {
    SortBy(Keep(charities, SelectedBy(searchQuery, category)), NameLe)
  }

  /** `search_charities`: the query is narrowed step by step, counted
      before paging, then ordered by name and cut at
      `(page - 1) * per_page`. */
  method SearchCharities(charities: seq<Charity>, searchQuery: Option<string>, activeFilter: Option<string>,
                         page: int, perPage: int, categoryNames: set<string>)
    returns (pageItems: seq<Charity>, total: nat)
    ensures var category := CategoryApplied(activeFilter, categoryNames);
      && total == |Keep(charities, SelectedBy(searchQuery, category))|
      && pageItems == Window(Ordered(charities, searchQuery, category), (page - 1) * perPage, perPage)
  {
    ghost var category := CategoryApplied(activeFilter, categoryNames);
    var query := Keep(charities, Vetted);
    ghost var stage1 := (c: Charity) => Vetted(c) && (StrTruthy(searchQuery) ==> TextMatch(c, searchQuery.value));
    if StrTruthy(searchQuery) {
      var term := searchQuery.value;
      KeepKeep(charities, Vetted, (c: Charity) => TextMatch(c, term), stage1);
      query := Keep(query, (c: Charity) => TextMatch(c, term));
    } else {
      KeepSame(charities, Vetted, stage1);
    }
    assert query == Keep(charities, stage1);
    if StrTruthy(activeFilter) && activeFilter.value != "all" && Upper(activeFilter.value) in categoryNames {
      var categoryEnum := Upper(activeFilter.value);
      KeepKeep(charities, stage1, (c: Charity) => categoryEnum in c.categories, SelectedBy(searchQuery, category));
      query := Keep(query, (c: Charity) => categoryEnum in c.categories);
    } else {
      KeepSame(charities, stage1, SelectedBy(searchQuery, category));
    }
    assert query == Keep(charities, SelectedBy(searchQuery, category));
    total := |query|;
    var offset := (page - 1) * perPage;
    pageItems := Window(SortBy(query, NameLe), offset, perPage);
  }

  /** The total counts exactly the selected charities. */
  lemma TotalCounts(charities: seq<Charity>, searchQuery: Option<string>, category: Option<string>, c: Charity)
    ensures multiset(Keep(charities, SelectedBy(searchQuery, category)))[c] ==
            if Selected(c, searchQuery, category) then multiset(charities)[c] else 0
  {
    KeepCount(charities, SelectedBy(searchQuery, category), c);
  }

  /** The ordered rows are exactly the selected charities, in name order. */
  lemma OrderedSpec(charities: seq<Charity>, searchQuery: Option<string>, category: Option<string>)
    ensures SortedBy(Ordered(charities, searchQuery, category), NameLe)
    ensures |Ordered(charities, searchQuery, category)| == |Keep(charities, SelectedBy(searchQuery, category))|
    ensures forall c :: c in Ordered(charities, searchQuery, category) <==>
      c in charities && Selected(c, searchQuery, category)
  {
    var kept := Keep(charities, SelectedBy(searchQuery, category));
    NameLeTotalPreorder();
    SortBySorted(kept, NameLe);
    SortByPermutes(kept, NameLe);
    assert |multiset(SortBy(kept, NameLe))| == |multiset(kept)|;
    forall c ensures c in Ordered(charities, searchQuery, category) <==> c in charities && Selected(c, searchQuery, category) {
      SortByMembers(kept, NameLe, c);
      KeepMember(charities, SelectedBy(searchQuery, category), c);
    }
  }

  /** Every charity on a page is vetted and selected; a page holds at most
      `per_page` of them, in name order. */
  lemma PageSpec(charities: seq<Charity>, searchQuery: Option<string>, category: Option<string>,
                 page: int, perPage: int)
    ensures var items := Window(Ordered(charities, searchQuery, category), (page - 1) * perPage, perPage);
      && (perPage >= 0 ==> |items| <= perPage)
      && (forall c :: c in items ==> c.isVetted && Selected(c, searchQuery, category))
      && SortedBy(items, NameLe)
  {
    var ordered := Ordered(charities, searchQuery, category);
    OrderedSpec(charities, searchQuery, category);
    var items := Window(ordered, (page - 1) * perPage, perPage);
    forall c | c in items ensures c.isVetted && Selected(c, searchQuery, category) {
      assert c in ordered;
    }
  }

  /** With the default `per_page` a page holds at most nine charities. */
  lemma DefaultPageSize(charities: seq<Charity>, searchQuery: Option<string>, category: Option<string>, page: int)
    ensures |Window(Ordered(charities, searchQuery, category), (page - 1) * DefaultPerPage, DefaultPerPage)| <= 9
  {
    PageSpec(charities, searchQuery, category, page, DefaultPerPage);
  }

  /** Pages 1..n, laid end to end, are the first n * per_page ordered rows:
      paging neither skips nor repeats a charity. */
  function Pages<T>(s: seq<T>, perPage: int, n: nat): seq<T>
    decreases n
  {
    if n == 0 then [] else Pages(s, perPage, n - 1) + Window(s, (n - 1) * perPage, perPage)
  }

  function Clamp(k: nat, len: nat): nat {
    if k <= len then k else len
  }

  /** The window after the first `k` rows extends them to the first `k + m`. */
  lemma WindowExtends<T>(s: seq<T>, k: nat, m: nat)
    ensures s[..Clamp(k, |s|)] + Window(s, k, m) == s[..Clamp(k + m, |s|)]
  {
    assert Window(s, k, m) == s[Clamp(k, |s|)..Clamp(k + m, |s|)];
  }

  lemma MulStep(n: nat, p: nat)
    requires n > 0
    ensures (n - 1) * p + p == n * p
  {
  }

  lemma {:induction false} PagesCover<T>(s: seq<T>, perPage: nat, n: nat)
    ensures Pages(s, perPage, n) == s[..Clamp(n * perPage, |s|)]
    decreases n
  {
    if n > 0 {
      var k: nat := (n - 1) * perPage;
      PagesCover(s, perPage, n - 1);
      WindowExtends(s, k, perPage);
      MulStep(n, perPage);
    }
  }
}
