/**
 * The search router: `all` (users and hashtags whose lower-cased name contains the lower-cased query)
 * and `explore` (posts filtered by content, date range, author and hashtag, paged with a cursor).
 */
module SearchRouter {
  import opened Wrappers
  import opened Rows
  import opened Ordering
  import opened Text
  import opened Schema
  import opened Views
  import opened Pagination
  import Store

  /** `.limit(5)` on both lists of `all`. */
  const ResultLimit := 5

  // ---------------------------------------------------------------------------------------------
  // all

  datatype UserHit = UserHit(id: UserId, name: string, username: Option<string>, image: Option<string>)
  datatype SearchResults = SearchResults(users: seq<UserHit>, hashtags: seq<TagCount>)

  /** `LIKE(LOWER(col), '%q%')` for an already lower-cased `q`. */
  predicate LikeLower(col: string, q: string) {
    Contains(LowerStr(col), q)
  }

  /** The user condition of `all`; a null username does not match. */
  function UserMatches(q: string): User -> bool {
    (u: User) => LikeLower(u.name, q) || (u.username.Some? && LikeLower(u.username.value, q))
  }

  function HitOf(): User -> UserHit {
    (u: User) => UserHit(u.id, u.name, u.username, u.image)
  }

  function TagMatches(q: string): Hashtag -> bool {
    (h: Hashtag) => LikeLower(h.name, q)
  }

  /**
   * `all`: at most 5 matching users (in table order: the query has no `ORDER BY`) and at most 5
   * matching hashtags, by distinct-post count descending. Names are unique, so grouping by name keeps
   * one row per tag.
   */
  function All(t: Tables, query: string): (r: SearchResults)
    ensures |r.users| <= ResultLimit && |r.hashtags| <= ResultLimit
  {
    var q := LowerStr(query);
    var users := Take(Filter(t.users, UserMatches(q)), ResultLimit);
    var tags := Fetch(t.hashtags, TagMatches(q), PostCount(t), ResultLimit);
    SearchResults(Map(users, HitOf()), Map(tags, CountOfTag(t)))
  }

  /** Every user `all` lists matches the lower-cased query. */
  lemma AllUsersMatch(t: Tables, query: string)
    ensures var r := All(t, query);
            forall i :: 0 <= i < |r.users| ==> exists u :: u in t.users && UserMatches(LowerStr(query))(u) && r.users[i] == HitOf()(u)
  {
    var matching := Filter(t.users, UserMatches(LowerStr(query)));
    var r := All(t, query);
    forall i | 0 <= i < |r.users|
      ensures exists u :: u in t.users && UserMatches(LowerStr(query))(u) && r.users[i] == HitOf()(u)
    {
      assert matching[i] in t.users && UserMatches(LowerStr(query))(matching[i]);
    }
  }

  /** When `all` lists fewer than 5 users, it lists every matching user. */
  lemma AllUsersComplete(t: Tables, query: string, u: User)
    requires u in t.users && UserMatches(LowerStr(query))(u)
    requires |All(t, query).users| < ResultLimit
    ensures HitOf()(u) in All(t, query).users
  {
    var matching := Filter(t.users, UserMatches(LowerStr(query)));
    assert All(t, query).users == Map(Take(matching, ResultLimit), HitOf());
    assert Take(matching, ResultLimit) == matching;
    ImageInMap(matching, HitOf(), u);
  }

  /** The image of every listed row is in the mapped list. */
  lemma ImageInMap<T, U>(s: seq<T>, g: T -> U, x: T)
    requires x in s
    ensures g(x) in Map(s, g)
  {
    var k :| 0 <= k < |s| && s[k] == x;
    assert Map(s, g)[k] == g(x);
  }

  /**
   * The hashtags `all` lists match the query and come by non-increasing distinct-post count, and a
   * matching tag left out counts no more posts than any tag listed; with fewer than 5 listed, none
   * is left out.
   */
  lemma AllHashtags(t: Tables, query: string, h: Hashtag)
    requires h in t.hashtags && TagMatches(LowerStr(query))(h)
    ensures var r := All(t, query);
            && (forall i, j :: 0 <= i < j < |r.hashtags| ==> r.hashtags[i].count >= r.hashtags[j].count)
            && (CountOfTag(t)(h) in r.hashtags
                || (|r.hashtags| == ResultLimit && forall i :: 0 <= i < |r.hashtags| ==> r.hashtags[i].count >= PostCount(t)(h)))
  {
    var q := LowerStr(query);
    assert All(t, query).hashtags == Map(Fetch(t.hashtags, TagMatches(q), PostCount(t), ResultLimit), CountOfTag(t));
    TopCounts(t, TagMatches(q), ResultLimit, h);
  }

  // ---------------------------------------------------------------------------------------------
  // explore: input, filters and conditions

  datatype SortBy = Relevance | Newest | Oldest
  datatype DateRange = DateRange(from: Option<int>, to: Option<int>)
  datatype ExploreInput = ExploreInput(query: string, dateRange: Option<DateRange>, filters: Option<seq<string>>,
                                       sortBy: SortBy, limit: nat, cursor: Option<int>)

  /** `query.length === 0 && !dateRange && !filters`: an empty array is truthy. */
  predicate EarlyReturn(input: ExploreInput) {
    |input.query| == 0 && input.dateRange.None? && input.filters.None?
  }

  function IsFromFilter(): string -> bool { (f: string) => StartsWith(f, "from:") }
  function IsTagFilter(): string -> bool { (f: string) => StartsWith(f, "#") }

  /** `f.split(":")[1]`; every `from:` filter has a `:`. */
  function FromName(): string -> string {
    (f: string) => match SecondField(f, ':') case Some(n) => n case None => ""
  }

  /** `f.slice(1)` */
  function DropFirst(): string -> string {
    (f: string) => if |f| >= 1 then f[1..] else f
  }

  /** `filters?.filter(from:).map(split(":")[1]) || []` */
  function Usernames(filters: Option<seq<string>>): (r: seq<string>)
    ensures filters.None? ==> r == []
  {
    match filters
    case None => []
    case Some(fs) => Map(Filter(fs, IsFromFilter()), FromName())
  }

  /** `filters?.filter(#).map(slice(1)) || []` */
  function HashtagFilters(filters: Option<seq<string>>): (r: seq<string>)
    ensures filters.None? ==> r == []
  {
    match filters
    case None => []
    case Some(fs) => Map(Filter(fs, IsTagFilter()), DropFirst())
  }

  /** A `from:` filter yields the name between its first and its second `:`. */
  lemma FromFilterName(name: string, rest: string)
    requires forall j :: 0 <= j < |name| ==> name[j] != ':'
    ensures Usernames(Some(["from:" + name])) == [name]
    ensures Usernames(Some(["from:" + name + ":" + rest])) == [name]
  {
    var f := "from:" + name;
    assert StartsWith(f, "from:") by { assert f[..5] == "from:"; }
    SecondFieldAfterPrefix("from:", name, ':');
    assert Filter([f], IsFromFilter()) == [f] by { assert |[f][1..]| == 0; }
    var g: string := "from:" + name + ":" + rest;
    var gs: seq<string> := [g];
    assert StartsWith(g, "from:") by { assert g[..5] == "from:"; }
    assert Filter(gs, IsFromFilter()) == gs by { assert |gs[1..]| == 0; }
    assert g == "from:" + (name + ":" + rest);
    var i := IndexOf(g, ':');
    assert IndexOf(g, ':') == Some(4) by {
      assert g[4] == ':' && forall j :: 0 <= j < 4 ==> g[j] != ':';
    }
    assert g[5..] == name + ":" + rest;
    assert IndexOf(g[5..], ':') == Some(|name|) by {
      var s := g[5..];
      assert s[|name|] == ':' && forall j :: 0 <= j < |name| ==> s[j] != ':';
    }
    assert (name + ":" + rest)[..|name|] == name;
  }

  /** A `#` filter yields its text without the `#`; other filters are ignored. */
  lemma TagFilterName(tag: string, other: string)
    requires !StartsWith(other, "#") && !StartsWith(other, "from:")
    ensures HashtagFilters(Some(["#" + tag, other])) == [tag]
    ensures Usernames(Some(["#" + tag, other])) == []
  {
    var f := "#" + tag;
    assert StartsWith(f, "#") by { assert f[..1] == "#"; }
    assert !StartsWith(f, "from:") by { assert |f| < 5 || f[0] != "from:"[0]; }
    var fs := [f, other];
    assert fs[1..] == [other] && |[other][1..]| == 0;
    assert Filter(fs, IsTagFilter()) == [f];
    assert Filter(fs, IsFromFilter()) == [];
    assert f[1..] == tag;
  }

  /** `users.username IN (usernames)`: the ids of the users holding one of the names. */
  function UserIdsOf(users: seq<User>, names: seq<string>): (r: seq<UserId>)
    ensures forall i :: 0 <= i < |r| ==> exists u :: u in users && u.id == r[i] && u.username.Some? && u.username.value in names
    ensures forall u :: u in users && u.username.Some? && u.username.value in names ==> u.id in r
  {
    var holders := Filter(users, (u: User) => u.username.Some? && u.username.value in names);
    var r := Map(holders, (u: User) => u.id);
    forall u | u in users && u.username.Some? && u.username.value in names ensures u.id in r {
      var k :| 0 <= k < |holders| && holders[k] == u;
      assert r[k] == u.id;
    }
    r
  }

  /** The conditions `explore` pushes. */
  datatype Cond =
    | ContentLike(q: string)                  // LOWER(content) LIKE '%q%'
    | CreatedBetween(from: int, to: int)      // created_at BETWEEN from AND to
    | AuthorIn(ids: seq<UserId>)              // created_by IN (ids)
    | TaggedWith(names: seq<string>)          // EXISTS a post_hashtags row whose hashtag's name is listed

  function ContentConds(input: ExploreInput): seq<Cond> {
    if |input.query| > 0 then [ContentLike(LowerStr(input.query))] else []
  }

  /** `dateRange?.from`, with `to` defaulting to `new Date()`. */
  function DateConds(input: ExploreInput, now: int): seq<Cond> {
    match input.dateRange
    case Some(DateRange(Some(from), to)) => [CreatedBetween(from, if to.Some? then to.value else now)]
    case _ => []
  }

  function AuthorConds(t: Tables, input: ExploreInput): seq<Cond> {
    var ids := UserIdsOf(t.users, Usernames(input.filters));
    if |ids| > 0 then [AuthorIn(ids)] else []
  }

  function TagConds(input: ExploreInput): seq<Cond> {
    var names := HashtagFilters(input.filters);
    if |names| > 0 then [TaggedWith(names)] else []
  }

  /** The conditions of `explore`, in push order. */
  function Conditions(t: Tables, input: ExploreInput, now: int): (r: seq<Cond>)
    ensures |r| <= 4
  {
    ContentConds(input) + DateConds(input, now) + AuthorConds(t, input) + TagConds(input)
  }

  /** The `conditions.push(…)` sequence of `explore`. */
  method PushConditions(t: Tables, input: ExploreInput, now: int) returns (conditions: seq<Cond>)
    ensures conditions == Conditions(t, input, now)
  {
    var usernames := Usernames(input.filters);
    var hashtagFilters := HashtagFilters(input.filters);
    var userIds: seq<UserId> := if |usernames| > 0 then UserIdsOf(t.users, usernames) else [];
    if |usernames| == 0 {
      NoNamesNoIds(t.users, usernames);
    }
    conditions := [];
    if |input.query| > 0 {
      conditions := conditions + [ContentLike(LowerStr(input.query))];
    }
    ghost var pushed := conditions;
    assert pushed == ContentConds(input);
    if input.dateRange.Some? && input.dateRange.value.from.Some? {
      var fromDate := input.dateRange.value.from.value;
      var toDate := if input.dateRange.value.to.Some? then input.dateRange.value.to.value else now;
      assert DateConds(input, now) == [CreatedBetween(fromDate, toDate)];
      conditions := conditions + [CreatedBetween(fromDate, toDate)];
    } else {
      assert DateConds(input, now) == [];
    }
    assert conditions == pushed + DateConds(input, now);
    pushed := conditions;
    assert userIds == UserIdsOf(t.users, Usernames(input.filters));
    if |userIds| > 0 {
      assert AuthorConds(t, input) == [AuthorIn(userIds)];
      conditions := conditions + [AuthorIn(userIds)];
    } else {
      assert AuthorConds(t, input) == [];
    }
    assert conditions == pushed + AuthorConds(t, input);
    pushed := conditions;
    if |hashtagFilters| > 0 {
      assert TagConds(input) == [TaggedWith(hashtagFilters)];
      conditions := conditions + [TaggedWith(hashtagFilters)];
    } else {
      assert TagConds(input) == [];
    }
    assert conditions == pushed + TagConds(input);
  }

  /** No usernames name no user. */
  lemma NoNamesNoIds(users: seq<User>, names: seq<string>)
    requires |names| == 0
    ensures UserIdsOf(users, names) == []
  {
  }

  /** Whether a post meets a condition. */
  predicate Holds(t: Tables, c: Cond, p: Post) {
    match c
    case ContentLike(q) => LikeLower(p.content, q)
    case CreatedBetween(from, to) => from <= p.createdAt <= to
    case AuthorIn(ids) => p.createdById in ids
    case TaggedWith(names) => Tagged(t, p, names)
  }

  /** `and(...conditions)`; no conditions match every post. */
  function HoldsAll(t: Tables, conds: seq<Cond>): Post -> bool {
    (p: Post) => forall i :: 0 <= i < |conds| ==> Holds(t, conds[i], p)
  }

  lemma HoldsAllAppend(t: Tables, a: seq<Cond>, b: seq<Cond>, p: Post)
    ensures HoldsAll(t, a + b)(p) <==> HoldsAll(t, a)(p) && HoldsAll(t, b)(p)
  {
    var ab := a + b;
    if HoldsAll(t, a)(p) && HoldsAll(t, b)(p) {
      forall i | 0 <= i < |ab| ensures Holds(t, ab[i], p) {
        if i < |a| { assert ab[i] == a[i]; } else { assert ab[i] == b[i - |a|]; }
      }
    }
    if HoldsAll(t, ab)(p) {
      forall i | 0 <= i < |a| ensures Holds(t, a[i], p) { assert ab[i] == a[i]; }
      forall i | 0 <= i < |b| ensures Holds(t, b[i], p) { assert ab[|a| + i] == b[i]; }
    }
  }

  /** The post's lower-cased content contains the lower-cased query, when there is a query. */
  predicate ContentOk(input: ExploreInput, p: Post) {
    |input.query| > 0 ==> LikeLower(p.content, LowerStr(input.query))
  }

  /** The post was created between `from` and `to` (or now), when `from` is given. */
  predicate DateOk(input: ExploreInput, now: int, p: Post) {
    input.dateRange.Some? && input.dateRange.value.from.Some? ==>
      input.dateRange.value.from.value <= p.createdAt
      <= if input.dateRange.value.to.Some? then input.dateRange.value.to.value else now
  }

  /** The post's author is one of the resolved users, when some `from:` name resolved. */
  predicate AuthorOk(t: Tables, input: ExploreInput, p: Post) {
    var ids := UserIdsOf(t.users, Usernames(input.filters));
    |ids| > 0 ==> p.createdById in ids
  }

  /** The post carries one of the `#` tags, when some were given. */
  predicate TagOk(t: Tables, input: ExploreInput, p: Post) {
    var names := HashtagFilters(input.filters);
    |names| > 0 ==> Tagged(t, p, names)
  }

  lemma SingleCond(t: Tables, c: seq<Cond>, p: Post)
    requires |c| == 1
    ensures HoldsAll(t, c)(p) <==> Holds(t, c[0], p)
  {
  }

  lemma ContentCondsMeaning(t: Tables, input: ExploreInput, p: Post)
    ensures HoldsAll(t, ContentConds(input))(p) == ContentOk(input, p)
  {
    if |input.query| > 0 { SingleCond(t, ContentConds(input), p); }
  }

  lemma DateCondsMeaning(t: Tables, input: ExploreInput, now: int, p: Post)
    ensures HoldsAll(t, DateConds(input, now))(p) == DateOk(input, now, p)
  {
    if input.dateRange.Some? && input.dateRange.value.from.Some? { SingleCond(t, DateConds(input, now), p); }
  }

  lemma AuthorCondsMeaning(t: Tables, input: ExploreInput, p: Post)
    ensures HoldsAll(t, AuthorConds(t, input))(p) == AuthorOk(t, input, p)
  {
    if |AuthorConds(t, input)| == 1 { SingleCond(t, AuthorConds(t, input), p); }
  }

  lemma TagCondsMeaning(t: Tables, input: ExploreInput, p: Post)
    ensures HoldsAll(t, TagConds(input))(p) == TagOk(t, input, p)
  {
    if |TagConds(input)| == 1 { SingleCond(t, TagConds(input), p); }
  }

  /** What the conditions of `explore` mean for a post: each filter given narrows, the others do not. */
  lemma ConditionsMeaning(t: Tables, input: ExploreInput, now: int, p: Post)
    ensures HoldsAll(t, Conditions(t, input, now))(p) <==>
              ContentOk(input, p) && DateOk(input, now, p) && AuthorOk(t, input, p) && TagOk(t, input, p)
  {
    var c1, c2, c3, c4 := ContentConds(input), DateConds(input, now), AuthorConds(t, input), TagConds(input);
    ContentCondsMeaning(t, input, p);
    DateCondsMeaning(t, input, now, p);
    AuthorCondsMeaning(t, input, p);
    TagCondsMeaning(t, input, p);
    HoldsAllAppend(t, c1, c2, p);
    HoldsAllAppend(t, c1 + c2, c3, p);
    HoldsAllAppend(t, c1 + c2 + c3, c4, p);
  }

  /** With no user holding any of the `from:` names, the author filter adds no condition and so narrows nothing. */
  lemma UnresolvedAuthorsDoNotNarrow(t: Tables, input: ExploreInput)
    requires forall u :: u in t.users && u.username.Some? ==> u.username.value !in Usernames(input.filters)
    ensures AuthorConds(t, input) == []
  {
    var ids := UserIdsOf(t.users, Usernames(input.filters));
    if |ids| > 0 {
      assert false;
    }
  }

  /** `orderBy: sortBy === "oldest" ? [createdAt] : [desc(createdAt)]`, as a descending key. */
  function OrderKey(sortBy: SortBy): Post -> int {
    if sortBy == Oldest then (p: Post) => -p.createdAt else CreatedAtKey()
  }

  // ---------------------------------------------------------------------------------------------
  // explore: the page

  /**
   * `explore` as written: the early return; otherwise `limit + 1` posts meeting every condition and
   * `id < cursor`, in `createdAt` order, the extra one popped, each shown in its full view for the
   * caller (flags false without a session).
   */
  function ExploreSpec(t: Tables, caller: Option<UserId>, input: ExploreInput, now: int): Page<PostView> {
    if EarlyReturn(input) then Page([], None)
    else
      var page := ListPage(t.posts, Before(HoldsAll(t, Conditions(t, input, now)), PostKey(), input.cursor),
                           OrderKey(input.sortBy), PostKey(), input.limit);
      Page(Map(page.items, (p: Post) => ProjectFull(t, p, caller)), page.nextCursor)
  }

  method Explore(db: Store.Database, caller: Option<UserId>, input: ExploreInput, now: int) returns (r: Page<PostView>)
    ensures r == ExploreSpec(db.tables, caller, input, now)
  {
    if EarlyReturn(input) {
      return Page([], None);
    }
    var t := db.tables;
    var conditions := PushConditions(t, input, now);
    var where := Before(HoldsAll(t, conditions), PostKey(), input.cursor);
    var fetched := Fetch(t.posts, where, OrderKey(input.sortBy), input.limit + 1);
    var page := PopExtra(fetched, input.limit, PostKey());
    r := Page(Map(page.items, (p: Post) => ProjectFull(t, p, caller)), page.nextCursor);
  }

  /** An empty query with neither date range nor filters lists nothing; an empty filter list is not the same. */
  lemma ExploreEarlyReturn(t: Tables, caller: Option<UserId>, input: ExploreInput, now: int)
    ensures EarlyReturn(input) ==> ExploreSpec(t, caller, input, now) == Page([], None)
    ensures input.query == [] && input.dateRange.None? && input.filters == Some([]) ==>
              Conditions(t, input, now) == []
              && ExploreSpec(t, caller, input, now).nextCursor
                 == ListPage(t.posts, Before(HoldsAll(t, []), PostKey(), input.cursor), OrderKey(input.sortBy), PostKey(), input.limit).nextCursor
  {
    if input.query == [] && input.dateRange.None? && input.filters == Some([]) {
      assert Usernames(input.filters) == [] && HashtagFilters(input.filters) == [];
      assert UserIdsOf(t.users, []) == [];
    }
  }

  /** A page of `explore` lists at most `limit` items, each the full view of a post meeting every condition and the cursor bound. */
  lemma ExplorePageRows(t: Tables, caller: Option<UserId>, input: ExploreInput, now: int)
    requires !EarlyReturn(input)
    ensures var r := ExploreSpec(t, caller, input, now);
            var where := Before(HoldsAll(t, Conditions(t, input, now)), PostKey(), input.cursor);
            && |r.items| <= input.limit
            && (forall i :: 0 <= i < |r.items| ==> exists p :: p in t.posts && where(p) && r.items[i] == ProjectFull(t, p, caller))
  {
    var where := Before(HoldsAll(t, Conditions(t, input, now)), PostKey(), input.cursor);
    var page := ListPage(t.posts, where, OrderKey(input.sortBy), PostKey(), input.limit);
    var r := ExploreSpec(t, caller, input, now);
    forall i | 0 <= i < |r.items| ensures exists p :: p in t.posts && where(p) && r.items[i] == ProjectFull(t, p, caller) {
      assert page.items[i] in t.posts && where(page.items[i]);
    }
  }

  /** With a truthy cursor every item of an `explore` page has an id below it. */
  lemma ExploreBelowCursor(t: Tables, caller: Option<UserId>, input: ExploreInput, now: int)
    requires !EarlyReturn(input) && Truthy(input.cursor)
    ensures var r := ExploreSpec(t, caller, input, now);
            forall i :: 0 <= i < |r.items| ==> r.items[i].id < input.cursor.value
  {
    var where := Before(HoldsAll(t, Conditions(t, input, now)), PostKey(), input.cursor);
    var page := ListPage(t.posts, where, OrderKey(input.sortBy), PostKey(), input.limit);
    var r := ExploreSpec(t, caller, input, now);
    forall i | 0 <= i < |r.items| ensures r.items[i].id < input.cursor.value {
      assert where(page.items[i]);
    }
  }

  /**
   * As written, the popped post is lost from the next page, whatever the sort: it passes the search,
   * its id becomes the cursor, and `id < cursor` keeps it off the page that cursor asks for.
   */
  lemma ExplorePoppedSkipped(t: Tables, caller: Option<UserId>, input: ExploreInput, now: int)
    requires !EarlyReturn(input)
    ensures var where := Before(HoldsAll(t, Conditions(t, input, now)), PostKey(), input.cursor);
            var r := ExploreSpec(t, caller, input, now);
            var fetched := Fetch(t.posts, where, OrderKey(input.sortBy), input.limit + 1);
            Truthy(r.nextCursor) ==>
              && |fetched| == input.limit + 1
              && fetched[input.limit] in t.posts && where(fetched[input.limit])
              && r.nextCursor == Some(fetched[input.limit].id)
              && var next := ExploreSpec(t, caller, input.(cursor := r.nextCursor), now);
                 forall i :: 0 <= i < |next.items| ==> next.items[i].id != fetched[input.limit].id
  {
    var r := ExploreSpec(t, caller, input, now);
    ExplorePageNext(t, caller, input, now);
    if Truthy(r.nextCursor) {
      ExploreBelowCursor(t, caller, input.(cursor := r.nextCursor), now);
    }
  }

  /** `explore` lists by ascending `createdAt` for "oldest" and by descending `createdAt` otherwise. */
  lemma ExplorePageOrder(t: Tables, caller: Option<UserId>, input: ExploreInput, now: int)
    requires !EarlyReturn(input)
    ensures var r := ExploreSpec(t, caller, input, now);
            forall i, j :: 0 <= i < j < |r.items| ==>
              if input.sortBy == Oldest then r.items[i].createdAt <= r.items[j].createdAt else r.items[i].createdAt >= r.items[j].createdAt
  {
    var where := Before(HoldsAll(t, Conditions(t, input, now)), PostKey(), input.cursor);
    var key := OrderKey(input.sortBy);
    var page := ListPage(t.posts, where, key, PostKey(), input.limit);
    var r := ExploreSpec(t, caller, input, now);
    forall i, j | 0 <= i < j < |r.items|
      ensures if input.sortBy == Oldest then r.items[i].createdAt <= r.items[j].createdAt else r.items[i].createdAt >= r.items[j].createdAt
    {
      assert key(page.items[i]) >= key(page.items[j]);
    }
  }

  /**
   * `explore` hands out a next cursor exactly when more than `limit` posts qualify, and it is the id
   * of the popped (`limit + 1`-th) post.
   */
  lemma ExplorePageNext(t: Tables, caller: Option<UserId>, input: ExploreInput, now: int)
    requires !EarlyReturn(input)
    ensures var where := Before(HoldsAll(t, Conditions(t, input, now)), PostKey(), input.cursor);
            var r := ExploreSpec(t, caller, input, now);
            var fetched := Fetch(t.posts, where, OrderKey(input.sortBy), input.limit + 1);
            && (r.nextCursor.Some? <==> |Filter(t.posts, where)| > input.limit)
            && (r.nextCursor.Some? ==> |fetched| == input.limit + 1 && r.nextCursor == Some(fetched[input.limit].id))
  {
    var where := Before(HoldsAll(t, Conditions(t, input, now)), PostKey(), input.cursor);
    var key := OrderKey(input.sortBy);
    ExploreSpecPage(t, caller, input, now);
    if |Filter(t.posts, where)| > input.limit {
      OverflowHasNext(t.posts, where, key, PostKey(), input.limit);
    } else {
      ExactFitHasNoNext(t.posts, where, key, PostKey(), input.limit);
    }
  }

  // ---------------------------------------------------------------------------------------------
  // explore: the "oldest" cursor

  /** Posts are created in id order: a larger id means a later `createdAt`. */
  ghost predicate CreatedInIdOrder(posts: seq<Post>) {
    forall i, j :: 0 <= i < |posts| && 0 <= j < |posts| && posts[i].id < posts[j].id ==> posts[i].createdAt < posts[j].createdAt
  }

  /**
   * Finding, as written: sorted by "oldest", the first page pops a post later than every post it
   * shows and hands out its id; the next page keeps only `id < cursor`, which every post of the first
   * page meets, and orders by `createdAt` ascending again, so it starts with the same oldest post.
   * (Posts 1, 2, 3 created in that order with `limit` 1: both pages show post 1, posts 2 and 3 are
   * never reached.)
   */
  lemma ExploreOldestRepeats(t: Tables, caller: Option<UserId>, input: ExploreInput, now: int)
    requires UniqueKeys(t.posts, PostKey()) && CreatedInIdOrder(t.posts)
    requires !EarlyReturn(input) && input.sortBy == Oldest && input.cursor.None? && input.limit >= 1
    requires ExploreSpec(t, caller, input, now).nextCursor.Some?
    ensures var p1 := ExploreSpec(t, caller, input, now);
            var p2 := ExploreSpec(t, caller, input.(cursor := p1.nextCursor), now);
            |p1.items| >= 1 && |p2.items| >= 1 && p2.items[0] == p1.items[0]
  {
    var keep := HoldsAll(t, Conditions(t, input, now));
    var key := OrderKey(Oldest);
    var page1 := ListPage(t.posts, Before(keep, PostKey(), None), key, PostKey(), input.limit);
    var input2 := input.(cursor := page1.nextCursor);
    ExploreSpecPage(t, caller, input, now);
    ExploreSpecPage(t, caller, input2, now);
    ConditionsIgnoreCursor(t, input, page1.nextCursor, now);
    OldestKeysUnique(t.posts);
    forall x, y | x in t.posts && y in t.posts && key(x) > key(y) ensures x.id < y.id {
      OlderHasSmallerId(t.posts, x, y);
    }
    FirstRowRepeats(t.posts, keep, key, input.limit);
  }

  /** The conditions do not depend on the cursor. */
  lemma ConditionsIgnoreCursor(t: Tables, input: ExploreInput, cursor: Option<int>, now: int)
    ensures Conditions(t, input.(cursor := cursor), now) == Conditions(t, input, now)
  {
    var input2 := input.(cursor := cursor);
    assert ContentConds(input2) == ContentConds(input);
    assert DateConds(input2, now) == DateConds(input, now);
    assert AuthorConds(t, input2) == AuthorConds(t, input);
    assert TagConds(input2) == TagConds(input);
  }

  /** `explore`, past the early return, is the full view of each post of one `ListPage`. */
  lemma ExploreSpecPage(t: Tables, caller: Option<UserId>, input: ExploreInput, now: int)
    requires !EarlyReturn(input)
    ensures var page := ListPage(t.posts, Before(HoldsAll(t, Conditions(t, input, now)), PostKey(), input.cursor),
                                 OrderKey(input.sortBy), PostKey(), input.limit);
            var r := ExploreSpec(t, caller, input, now);
            && r.nextCursor == page.nextCursor && |r.items| == |page.items|
            && forall i :: 0 <= i < |r.items| ==> r.items[i] == ProjectFull(t, page.items[i], caller)
  {
  }

  /**
   * In a listing by `key` descending whose larger keys have smaller ids, a first page's rows all
   * have ids below the popped row's, so the page asked for with `id < cursor` starts with the same row.
   */
  lemma FirstRowRepeats(posts: seq<Post>, keep: Post -> bool, key: Post -> int, limit: nat)
    requires UniqueKeys(posts, key) && limit >= 1
    requires forall x, y :: x in posts && y in posts && key(x) > key(y) ==> x.id < y.id
    requires ListPage(posts, Before(keep, PostKey(), None), key, PostKey(), limit).nextCursor.Some?
    ensures var p1 := ListPage(posts, Before(keep, PostKey(), None), key, PostKey(), limit);
            var p2 := ListPage(posts, Before(keep, PostKey(), p1.nextCursor), key, PostKey(), limit);
            |p1.items| >= 1 && |p2.items| >= 1 && p2.items[0] == p1.items[0]
  {
    var w1 := Before(keep, PostKey(), None);
    assert w1 == keep;
    var f1 := Fetch(posts, w1, key, limit + 1);
    var p1 := ListPage(posts, w1, key, PostKey(), limit);
    assert |f1| == limit + 1;
    var x := f1[limit];
    var m := f1[0];
    assert p1.nextCursor == Some(x.id) && p1.items[0] == m;
    var w2 := Before(keep, PostKey(), Some(x.id));
    if x.id != 0 {
      assert w2(m) by {
        FetchStrict(posts, w1, key, limit + 1);
        assert key(m) > key(x);
        assert m in posts && x in posts;
      }
      MinRowUnique(posts, w1, w2, key, limit + 1, m);
    }
  }

  /** The first row of a fetch under a narrower `where` that the first row of the wider fetch meets is that row. */
  lemma MinRowUnique(posts: seq<Post>, w1: Post -> bool, w2: Post -> bool, key: Post -> int, n: nat, m: Post)
    requires UniqueKeys(posts, key) && n >= 1
    requires forall p :: w2(p) ==> w1(p)
    requires |Fetch(posts, w1, key, n)| >= 1 && m == Fetch(posts, w1, key, n)[0] && w2(m)
    ensures |Fetch(posts, w2, key, n)| >= 1 && Fetch(posts, w2, key, n)[0] == m
  {
    var f1 := Fetch(posts, w1, key, n);
    var f2 := Fetch(posts, w2, key, n);
    FetchTop(posts, w2, key, n, m);
    assert f2[0] in posts && w1(f2[0]);
    FetchTop(posts, w1, key, n, f2[0]);
    assert key(f2[0]) == key(m);
    var a :| 0 <= a < |posts| && posts[a] == f2[0];
    var b :| 0 <= b < |posts| && posts[b] == m;
    assert a == b;
  }

  lemma OldestKeysUnique(posts: seq<Post>)
    requires UniqueKeys(posts, PostKey()) && CreatedInIdOrder(posts)
    ensures UniqueKeys(posts, OrderKey(Oldest))
  {
    forall i, j | 0 <= i < |posts| && 0 <= j < |posts| && OrderKey(Oldest)(posts[i]) == OrderKey(Oldest)(posts[j])
      ensures i == j
    {
      assert !(posts[i].id < posts[j].id) && !(posts[j].id < posts[i].id);
    }
  }

  lemma OlderHasSmallerId(posts: seq<Post>, m: Post, x: Post)
    requires UniqueKeys(posts, PostKey()) && CreatedInIdOrder(posts)
    requires m in posts && x in posts && m.createdAt < x.createdAt
    ensures m.id < x.id
  {
    var a :| 0 <= a < |posts| && posts[a] == m;
    var b :| 0 <= b < |posts| && posts[b] == x;
    assert !(posts[b].id < posts[a].id);
    assert a != b;
    assert posts[a].id != posts[b].id;
  }

  /** The corrected order: by id in the direction asked for, which is creation order for a serial id. */
  function IdOrder(sortBy: SortBy): Post -> int {
    if sortBy == Oldest then (p: Post) => -p.id else PostKey()
  }

  /** The cursor is the id itself, so `id == IdSign * IdOrder`. */
  function IdSign(sortBy: SortBy): int {
    if sortBy == Oldest then -1 else 1
  }

  /**
   * Corrected `explore`: ordered by id (descending, or ascending for "oldest") and bounded by
   * `id <= cursor` (or `id >= cursor`), so that the next page starts with the popped post.
   */
  function ExploreByIdSpec(t: Tables, caller: Option<UserId>, input: ExploreInput, now: int): Page<PostView> {
    if EarlyReturn(input) then Page([], None)
    else
      var sortBy := input.sortBy;
      var page := ListPage(t.posts, AtOrAfter(HoldsAll(t, Conditions(t, input, now)), IdOrder(sortBy), IdSign(sortBy), input.cursor),
                           IdOrder(sortBy), PostKey(), input.limit);
      Page(Map(page.items, (p: Post) => ProjectFull(t, p, caller)), page.nextCursor)
  }

  lemma IdOrderFacts(posts: seq<Post>, sortBy: SortBy)
    requires UniqueKeys(posts, PostKey())
    ensures UniqueKeys(posts, IdOrder(sortBy))
    ensures forall p: Post :: PostKey()(p) == IdSign(sortBy) * IdOrder(sortBy)(p)
  {
  }

  /**
   * Corrected, continued: every post meeting the conditions and the cursor bound is on this page or
   * meets the next page's bound, no post of this page meets it again, and (with `limit >= 1`) the
   * next page starts with the popped post.
   */
  lemma ExploreByIdContinues(t: Tables, caller: Option<UserId>, input: ExploreInput, now: int)
    requires UniqueKeys(t.posts, PostKey()) && !EarlyReturn(input) && input.limit >= 1
    requires var s := input.sortBy;
             Truthy(ListPage(t.posts, AtOrAfter(HoldsAll(t, Conditions(t, input, now)), IdOrder(s), IdSign(s), input.cursor),
                             IdOrder(s), PostKey(), input.limit).nextCursor)
    ensures var s := input.sortBy;
            var keep := HoldsAll(t, Conditions(t, input, now));
            var where := AtOrAfter(keep, IdOrder(s), IdSign(s), input.cursor);
            var page := ListPage(t.posts, where, IdOrder(s), PostKey(), input.limit);
            var next := AtOrAfter(keep, IdOrder(s), IdSign(s), page.nextCursor);
            && ExploreByIdSpec(t, caller, input, now).nextCursor == page.nextCursor
            && (forall p :: p in t.posts && where(p) ==> p in page.items || next(p))
            && (forall i :: 0 <= i < |page.items| ==> !next(page.items[i]))
            && var p2 := ListPage(t.posts, next, IdOrder(s), PostKey(), input.limit);
               |p2.items| >= 1 && p2.items[0] in t.posts && p2.items[0].id == page.nextCursor.value
  {
    var s := input.sortBy;
    var keep := HoldsAll(t, Conditions(t, input, now));
    IdOrderFacts(t.posts, s);
    NextPageContinues(t.posts, keep, IdOrder(s), PostKey(), IdSign(s), input.limit, input.cursor);
    NextPageStartsAtPopped(t.posts, keep, IdOrder(s), PostKey(), IdSign(s), input.limit, input.cursor);
    var x := PoppedRow(t.posts, keep, IdOrder(s), PostKey(), IdSign(s), input.limit, input.cursor);
  }
}
