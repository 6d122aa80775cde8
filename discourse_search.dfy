/**
 * The weighted discourse search and the search by author, over in-memory
 * tables. SQL `ilike` with the term wrapped in `%...%` is modelled as a
 * case-insensitive substring test; the inner joins are lookups by primary
 * key; `ORDER BY` is a stable sort by the same keys.
 */
module DiscourseSearch {
  import opened Wrappers
  import opened Text
  import opened Seqs
  import opened Sorting

  const DefaultLimit: int := 7

  datatype Post = Post(id: nat, userId: nat, subcategoryId: nat, title: string, body: string,
                       datePosted: int, isApproved: bool)
  datatype Author = Author(id: nat, name: string, otherNames: string)
  datatype SubCategory = SubCategory(id: nat, categoryId: nat, name: string)
  datatype Category = Category(id: nat, name: string)

  /** One row of the joined tables. */
  datatype Row = Row(post: Post, author: Author, sub: SubCategory, category: Category)

  /** A row with its relevance score. */
  datatype Scored = Scored(post: Post, relevance: int)

  // ---------------------------------------------------------------------
  // Joins
  // ---------------------------------------------------------------------

  function AuthorById(users: seq<Author>, id: nat): (r: Option<Author>)
    ensures r.Some? ==> r.value in users && r.value.id == id
    ensures r.None? ==> forall u :: u in users ==> u.id != id
    decreases |users|
  {
    if users == [] then None
    else if users[0].id == id then Some(users[0])
    else AuthorById(users[1..], id)
  }

  function SubCategoryById(subs: seq<SubCategory>, id: nat): (r: Option<SubCategory>)
    ensures r.Some? ==> r.value in subs && r.value.id == id
    ensures r.None? ==> forall s :: s in subs ==> s.id != id
    decreases |subs|
  {
    if subs == [] then None
    else if subs[0].id == id then Some(subs[0])
    else SubCategoryById(subs[1..], id)
  }

  function CategoryById(cats: seq<Category>, id: nat): (r: Option<Category>)
    ensures r.Some? ==> r.value in cats && r.value.id == id
    ensures r.None? ==> forall c :: c in cats ==> c.id != id
    decreases |cats|
  {
    if cats == [] then None
    else if cats[0].id == id then Some(cats[0])
    else CategoryById(cats[1..], id)
  }

  /** The joined row of one post, when its author, subcategory and that
      subcategory's category all exist. */
  function RowOf(p: Post, users: seq<Author>, subs: seq<SubCategory>, cats: seq<Category>): Option<Row> {
    var u := AuthorById(users, p.userId);
    var s := SubCategoryById(subs, p.subcategoryId);
    if u.None? || s.None? then None
    else
      var c := CategoryById(cats, s.value.categoryId);
      if c.None? then None else Some(Row(p, u.value, s.value, c.value))
  }

  /** The inner join of posts with authors, subcategories and categories,
      in post order (ids are primary keys, so each post joins at most once). */
  function Joined(posts: seq<Post>, users: seq<Author>, subs: seq<SubCategory>, cats: seq<Category>): (r: seq<Row>)
    ensures |r| <= |posts|
    ensures forall row :: row in r ==>
      (row.post in posts && row.author.id == row.post.userId
       && row.sub.id == row.post.subcategoryId && row.category.id == row.sub.categoryId
       && row.author in users && row.sub in subs && row.category in cats)
    decreases |posts|
  {
    if posts == [] then []
    else
      var rest := Joined(posts[..|posts| - 1], users, subs, cats);
      var o := RowOf(posts[|posts| - 1], users, subs, cats);
      rest + (if o.Some? then [o.value] else [])
  }

  /** A post is joined exactly when its author, subcategory and category exist. */
  lemma {:induction false} JoinedPost(posts: seq<Post>, users: seq<Author>, subs: seq<SubCategory>,
                                      cats: seq<Category>, p: Post)
    ensures (exists row :: row in Joined(posts, users, subs, cats) && row.post == p) <==>
            p in posts && RowOf(p, users, subs, cats).Some?
    decreases |posts|
  {
    if posts != [] {
      var init := posts[..|posts| - 1];
      JoinedPost(init, users, subs, cats, p);
      assert posts == init + [posts[|posts| - 1]];
      var o := RowOf(posts[|posts| - 1], users, subs, cats);
      if p == posts[|posts| - 1] && o.Some? {
        assert o.value in Joined(posts, users, subs, cats);
      }
    }
  }

  // ---------------------------------------------------------------------
  // Relevance
  // ---------------------------------------------------------------------

  /** `column.ilike('%' + term + '%')` */
  predicate ILike(column: string, term: string) {
    ContainsIgnoreCase(column, term)
  }

  /** The filter: the term occurs in one of the six columns. */
  predicate Matches(row: Row, term: string) {
    || ILike(row.post.title, term) || ILike(row.post.body, term)
    || ILike(row.author.name, term) || ILike(row.author.otherNames, term)
    || ILike(row.sub.name, term) || ILike(row.category.name, term)
  }

  /** The `case` weight: the first matching column decides. */
  function Relevance(row: Row, term: string): (w: int)
    ensures 1 <= w <= 5
    ensures w == 1 <==> ILike(row.post.title, term)
    ensures w == 2 <==> !ILike(row.post.title, term) && (ILike(row.author.name, term) || ILike(row.author.otherNames, term))
    ensures w == 3 <==> !ILike(row.post.title, term) && !ILike(row.author.name, term)
                        && !ILike(row.author.otherNames, term) && ILike(row.post.body, term)
    ensures w == 4 <==> !ILike(row.post.title, term) && !ILike(row.author.name, term)
                        && !ILike(row.author.otherNames, term) && !ILike(row.post.body, term)
                        && (ILike(row.sub.name, term) || ILike(row.category.name, term))
    ensures w == 5 <==> !Matches(row, term)
  {
    if ILike(row.post.title, term) then 1
    else if ILike(row.author.name, term) then 2
    else if ILike(row.author.otherNames, term) then 2
    else if ILike(row.post.body, term) then 3
    else if ILike(row.sub.name, term) then 4
    else if ILike(row.category.name, term) then 4
    else 5
  }

  /** The filter and the weight agree: a row passes the filter exactly
      when its weight is below the fallback 5. */
  lemma MatchesIffRelevant(row: Row, term: string)
    ensures Matches(row, term) <==> Relevance(row, term) < 5
  {
  }

  /** Approved and matching: the rows the query keeps. */
  function Eligible(term: string): Row -> bool {
    (row: Row) => row.post.isApproved && Matches(row, term)
  }

  function ScoreAll(rows: seq<Row>, term: string): (r: seq<Scored>)
    ensures |r| == |rows|
    ensures forall i :: 0 <= i < |rows| ==> r[i] == Scored(rows[i].post, Relevance(rows[i], term))
  {
    seq(|rows|, i requires 0 <= i < |rows| => Scored(rows[i].post, Relevance(rows[i], term)))
  }

  /** `ORDER BY relevance, date_posted DESC` */
  predicate RankLe(a: Scored, b: Scored) {
    a.relevance < b.relevance || (a.relevance == b.relevance && a.post.datePosted >= b.post.datePosted)
  }

  lemma RankLeTotalPreorder()
    ensures Total(RankLe) && Transitive(RankLe)
  {
  }

  /** `LIMIT n`: SQLite reads a negative limit as no limit. */
  function Limit<T>(s: seq<T>, n: int): (r: seq<T>)
    ensures n >= 0 ==> |r| == if n < |s| then n else |s|
    ensures n < 0 ==> r == s
    ensures |r| <= |s| && r == s[..|r|]
  {
    if n < 0 || n >= |s| then s else s[..n]
  }

  function Posts(s: seq<Scored>): (r: seq<Post>)
    ensures |r| == |s| && forall i :: 0 <= i < |s| ==> r[i] == s[i].post
  {
    seq(|s|, i requires 0 <= i < |s| => s[i].post)
  }

  /** The ranked matches before the limit. */
  function Ranked(rows: seq<Row>, term: string): seq<Scored> {
    SortBy(ScoreAll(Keep(rows, Eligible(term)), term), RankLe)
  }

  /** `search_discourses`: None, empty and one-character queries give no
      results; otherwise the best-ranked approved matches, at most `limit`. */
  function SearchDiscourses(query: Option<string>, limit: int, posts: seq<Post>, users: seq<Author>,
                            subs: seq<SubCategory>, cats: seq<Category>): (r: seq<Post>)
    ensures !StrTruthy(query) || |query.value| < 2 ==> r == []
    ensures limit >= 0 ==> |r| <= limit
    ensures StrTruthy(query) && |query.value| >= 2 ==>
      r == Posts(Limit(Ranked(Joined(posts, users, subs, cats), query.value), limit))
  {
    if !StrTruthy(query) || |query.value| < 2 then []
    else
      var ranked := Ranked(Joined(posts, users, subs, cats), query.value);
      Posts(Limit(ranked, limit))
  }

  /** `e` is the score of an approved row of `rows` that matches `term`. */
  ghost predicate ScoredFrom(rows: seq<Row>, term: string, e: Scored) {
    exists row :: row in rows && row.post.isApproved && Matches(row, term) && e == Scored(row.post, Relevance(row, term))
  }

  lemma ScoredMember(rows: seq<Row>, term: string, e: Scored)
    ensures e in ScoreAll(Keep(rows, Eligible(term)), term) <==> ScoredFrom(rows, term, e)
  {
    var kept := Keep(rows, Eligible(term));
    var scored := ScoreAll(kept, term);
    if e in scored {
      var i :| 0 <= i < |scored| && scored[i] == e;
      assert kept[i] in kept;
      KeepMember(rows, Eligible(term), kept[i]);
    }
    if ScoredFrom(rows, term, e) {
      var row :| row in rows && row.post.isApproved && Matches(row, term) && e == Scored(row.post, Relevance(row, term));
      KeepMember(rows, Eligible(term), row);
      var i :| 0 <= i < |kept| && kept[i] == row;
      assert scored[i] == e;
    }
  }

  /** Every ranked entry is an approved post with a matching joined row,
      scored by that row and below the fallback weight; every approved
      matching row is ranked. The ranking is in order. */
  lemma {:induction false} RankedSpec(rows: seq<Row>, term: string)
    ensures SortedBy(Ranked(rows, term), RankLe)
    ensures forall e :: e in Ranked(rows, term) <==> ScoredFrom(rows, term, e)
    ensures forall e :: e in Ranked(rows, term) ==> e.post.isApproved && e.relevance < 5
  {
    var scored := ScoreAll(Keep(rows, Eligible(term)), term);
    RankLeTotalPreorder();
    SortBySorted(scored, RankLe);
    forall e
      ensures e in Ranked(rows, term) <==> ScoredFrom(rows, term, e)
    {
      SortByMembers(scored, RankLe, e);
      ScoredMember(rows, term, e);
    }
    forall e | e in Ranked(rows, term) ensures e.post.isApproved && e.relevance < 5 {
      var row :| row in rows && row.post.isApproved && Matches(row, term) && e == Scored(row.post, Relevance(row, term));
      MatchesIffRelevant(row, term);
    }
  }

  /** No row is lost or repeated by the ranking: it is a permutation of
      the scored matches. */
  lemma RankedPermutes(rows: seq<Row>, term: string)
    ensures multiset(Ranked(rows, term)) == multiset(ScoreAll(Keep(rows, Eligible(term)), term))
  {
    SortByPermutes(ScoreAll(Keep(rows, Eligible(term)), term), RankLe);
  }

  /** `search_discourses(q)` with its default limit returns at most seven posts. */
  lemma DefaultLimitResults(query: Option<string>, posts: seq<Post>, users: seq<Author>,
                            subs: seq<SubCategory>, cats: seq<Category>)
    ensures |SearchDiscourses(query, DefaultLimit, posts, users, subs, cats)| <= 7
  {
  }

  /** The results are the first entries of the ranking: in order, and no
      better-ranked match is left out for a worse one. */
  lemma {:induction false} SearchResultsRanked(query: string, limit: int, posts: seq<Post>, users: seq<Author>,
                                               subs: seq<SubCategory>, cats: seq<Category>)
    requires |query| >= 2
    ensures var ranked := Ranked(Joined(posts, users, subs, cats), query);
      var r := SearchDiscourses(Some(query), limit, posts, users, subs, cats);
      && |r| <= |ranked|
      && (forall i :: 0 <= i < |r| ==> r[i] == ranked[i].post && r[i].isApproved)
      && (forall i, j :: 0 <= i < j < |r| ==> RankLe(ranked[i], ranked[j]))
      && (forall i, j :: 0 <= i < |r| <= j < |ranked| ==> RankLe(ranked[i], ranked[j]))
  {
    var ranked := Ranked(Joined(posts, users, subs, cats), query);
    RankedSpec(Joined(posts, users, subs, cats), query);
    var r := SearchDiscourses(Some(query), limit, posts, users, subs, cats);
    forall i | 0 <= i < |r| ensures r[i] == ranked[i].post && r[i].isApproved {
      assert ranked[i] in ranked;
    }
  }

  // ---------------------------------------------------------------------
  // search_by_author
  // ---------------------------------------------------------------------

  /** `ORDER BY date_posted DESC` */
  predicate NewerOrSame(a: Post, b: Post) {
    a.datePosted >= b.datePosted
  }

  function ByAuthor(authorId: int): Post -> bool {
    (p: Post) => p.userId == authorId && p.isApproved
  }

  /** `search_by_author`: nothing for a falsy id, otherwise that author's
      approved posts, newest first. */
  function SearchByAuthor(authorId: Option<int>, posts: seq<Post>): (r: seq<Post>)
    ensures !IntTruthy(authorId) ==> r == []
    ensures IntTruthy(authorId) ==> multiset(r) == multiset(Keep(posts, ByAuthor(authorId.value)))
  {
    if !IntTruthy(authorId) then []
    else
      var mine := Keep(posts, ByAuthor(authorId.value));
      SortByPermutes(mine, NewerOrSame);
      SortBy(mine, NewerOrSame)
  }

  /** Exactly that author's approved posts, newest first. */
  lemma SearchByAuthorSpec(authorId: int, posts: seq<Post>)
    requires authorId != 0
    ensures var r := SearchByAuthor(Some(authorId), posts);
      && (forall p :: p in r <==> p in posts && p.userId == authorId && p.isApproved)
      && SortedBy(r, NewerOrSame)
  {
    var mine := Keep(posts, ByAuthor(authorId));
    forall p ensures p in SortBy(mine, NewerOrSame) <==> p in posts && p.userId == authorId && p.isApproved {
      SortByMembers(mine, NewerOrSame, p);
      KeepMember(posts, ByAuthor(authorId), p);
    }
    SortBySorted(mine, NewerOrSame);
  }
}
