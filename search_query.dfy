/**
 * The explore page's query box: the typed text is split into filters (`from:` tokens, then `#`
 * tokens) and a clean query with those tokens removed; the infinite query runs when either is non-empty.
 */
module SearchQuery {
  import opened Wrappers
  import opened Text
  import opened Rows
  import opened Schema
  import opened Views
  import opened Pagination
  import SearchRouter

  const FromPrefix: string := "from:"
  const TagPrefix: string := "#"

  /** `limit: 5` of the explore query. */
  const PageSize: nat := 5

  /** The length of the run of `cls` characters of `s` starting at `i`. */
  function RunLength(s: string, i: nat, cls: char -> bool): (n: nat)
    requires i <= |s|
    ensures i + n <= |s|
    ensures forall k :: i <= k < i + n ==> cls(s[k])
    ensures i + n == |s| || !cls(s[i + n])
    decreases |s| - i
  {
    if i == |s| || !cls(s[i]) then 0 else 1 + RunLength(s, i + 1, cls)
  }

  /**
   * The length of the match of `prefix` followed by one or more `cls` characters (greedy) at the
   * start of `s`, or 0 when the pattern does not match there.
   */
  function MatchAt(s: string, prefix: string, cls: char -> bool): (n: nat)
    ensures n <= |s|
    ensures n > 0 ==> n > |prefix| && StartsWith(s, prefix) && forall k :: |prefix| <= k < n ==> cls(s[k])
  {
    if StartsWith(s, prefix) && RunLength(s, |prefix|, cls) > 0 then |prefix| + RunLength(s, |prefix|, cls) else 0
  }

  /** A token of the pattern: the prefix, then at least one `cls` character. */
  predicate IsToken(m: string, prefix: string, cls: char -> bool) {
    |m| > |prefix| && StartsWith(m, prefix) && forall k :: |prefix| <= k < |m| ==> cls(m[k])
  }

  /** `s.match(/prefix[cls]+/g) || []`: the matches found scanning left to right, in order. */
  function Matches(s: string, prefix: string, cls: char -> bool): (r: seq<string>)
    ensures forall k :: 0 <= k < |r| ==> IsToken(r[k], prefix, cls)
    decreases |s|
  {
    if |s| == 0 then []
    else
      var n := MatchAt(s, prefix, cls);
      if n > 0 then [s[..n]] + Matches(s[n..], prefix, cls) else Matches(s[1..], prefix, cls)
  }

  /** `s.replace(/prefix[cls]+/g, "")`: the same scan, dropping each match. */
  function Remove(s: string, prefix: string, cls: char -> bool): (r: string)
    ensures |r| <= |s|
    decreases |s|
  {
    if |s| == 0 then []
    else
      var n := MatchAt(s, prefix, cls);
      if n > 0 then Remove(s[n..], prefix, cls) else [s[0]] + Remove(s[1..], prefix, cls)
  }

  function TotalLength(ms: seq<string>): nat {
    if ms == [] then 0 else |ms[0]| + TotalLength(ms[1..])
  }

  /** The removal drops exactly the characters of the matches the same pattern finds. */
  lemma {:induction false} RemoveAccounts(s: string, prefix: string, cls: char -> bool)
    ensures |Remove(s, prefix, cls)| + TotalLength(Matches(s, prefix, cls)) == |s|
    decreases |s|
  {
    if |s| > 0 {
      var n := MatchAt(s, prefix, cls);
      if n > 0 {
        RemoveAccounts(s[n..], prefix, cls);
        var ms := Matches(s, prefix, cls);
        assert ms[1..] == Matches(s[n..], prefix, cls);
      } else {
        RemoveAccounts(s[1..], prefix, cls);
      }
    }
  }

  /** The removal changes the text exactly when the pattern matches somewhere in it. */
  lemma {:induction false} RemoveIdentity(s: string, prefix: string, cls: char -> bool)
    ensures Remove(s, prefix, cls) == s <==> Matches(s, prefix, cls) == []
    decreases |s|
  {
    RemoveAccounts(s, prefix, cls);
    var ms := Matches(s, prefix, cls);
    if ms != [] {
      assert IsToken(ms[0], prefix, cls);
      assert TotalLength(ms) >= |ms[0]| > 0;
    } else if |s| > 0 {
      var n := MatchAt(s, prefix, cls);
      assert n == 0;
      RemoveIdentity(s[1..], prefix, cls);
      assert s == [s[0]] + s[1..];
    }
  }

  /** The query box's state after a change: the filters and the clean query. */
  datatype Parsed = Parsed(filters: seq<string>, cleanQuery: string)

  /** `handleInputChange` as written: usernames may hold `_`, but the removal pattern omits it. */
  function HandleInputChange(query: string): (r: Parsed)
    ensures forall k :: 0 <= k < |r.filters| ==> IsToken(r.filters[k], FromPrefix, IsWordChar) || IsToken(r.filters[k], TagPrefix, IsAlnum)
  {
    var usernames := Matches(query, FromPrefix, IsWordChar);
    var hashtags := Matches(query, TagPrefix, IsAlnum);
    var cleaned := Remove(Remove(query, FromPrefix, IsAlnum), TagPrefix, IsAlnum);
    Parsed(usernames + hashtags, Trim(cleaned))
  }

  /** The filters list the `from:` tokens in order of appearance, then the `#` tokens in order. */
  lemma FiltersOrder(query: string)
    ensures var r := HandleInputChange(query);
            var u := Matches(query, FromPrefix, IsWordChar);
            && r.filters[..|u|] == u
            && r.filters[|u|..] == Matches(query, TagPrefix, IsAlnum)
  {
  }

  /** A query holding no token at all keeps its text, trimmed, and has no filters. */
  lemma PlainQuery(query: string)
    requires Matches(query, FromPrefix, IsWordChar) == [] && Matches(query, TagPrefix, IsAlnum) == []
    requires Matches(query, FromPrefix, IsAlnum) == []
    ensures HandleInputChange(query) == Parsed([], Trim(query))
  {
    RemoveIdentity(query, FromPrefix, IsAlnum);
    RemoveIdentity(query, TagPrefix, IsAlnum);
  }

  /** `enabled`: the debounced clean query or the debounced filters are non-empty. */
  predicate Enabled(debouncedQuery: string, debouncedFilters: seq<string>) {
    |debouncedQuery| > 0 || |debouncedFilters| > 0
  }

  predicate AllSpace(s: string) {
    forall i :: 0 <= i < |s| ==> IsSpace(s[i])
  }

  /** A query with a token, or with text other than white space left after the removal, enables the search. */
  lemma EnabledIffContent(query: string)
    ensures var r := HandleInputChange(query);
            Enabled(r.cleanQuery, r.filters) <==>
              (|Matches(query, FromPrefix, IsWordChar)| > 0 || |Matches(query, TagPrefix, IsAlnum)| > 0
               || !AllSpace(Remove(Remove(query, FromPrefix, IsAlnum), TagPrefix, IsAlnum)))
  {
    var cleaned := Remove(Remove(query, FromPrefix, IsAlnum), TagPrefix, IsAlnum);
    var r := HandleInputChange(query);
    assert r.cleanQuery == Trim(cleaned);
    assert |r.cleanQuery| > 0 <==> !AllSpace(cleaned);
  }

  /**
   * `getNextPageParam: (lastPage) => lastPage.nextCursor`: the infinite query has a next page exactly
   * when the last page returned a cursor, and asks for it with the same input and that cursor.
   */
  function NextPageInput(input: SearchRouter.ExploreInput, lastPage: Page<PostView>): Option<SearchRouter.ExploreInput> {
    if lastPage.nextCursor.None? then None else Some(input.(cursor := lastPage.nextCursor))
  }

  /**
   * After an explore page, the infinite query asks for another exactly when more matching posts remain
   * than the page holds. It repeats the search with the cursor at the first post left over, and a
   * non-zero cursor keeps every post of that next page below it.
   */
  lemma NextPageContinues(t: Tables, caller: Option<UserId>, input: SearchRouter.ExploreInput, now: int)
    requires !SearchRouter.EarlyReturn(input)
    ensures var where := Before(SearchRouter.HoldsAll(t, SearchRouter.Conditions(t, input, now)), PostKey(), input.cursor);
            var fetched := Fetch(t.posts, where, SearchRouter.OrderKey(input.sortBy), input.limit + 1);
            var next := NextPageInput(input, SearchRouter.ExploreSpec(t, caller, input, now));
            && (next.Some? <==> |Filter(t.posts, where)| > input.limit)
            && (next.Some? ==>
                  && next.value == input.(cursor := Some(fetched[input.limit].id))
                  && !SearchRouter.EarlyReturn(next.value))
  {
    SearchRouter.ExplorePageNext(t, caller, input, now);
  }

  /** Every post of the page asked for by a non-zero next cursor lies below that cursor. */
  lemma NextPageBelowCursor(t: Tables, caller: Option<UserId>, input: SearchRouter.ExploreInput, now: int)
    requires !SearchRouter.EarlyReturn(input)
    ensures var next := NextPageInput(input, SearchRouter.ExploreSpec(t, caller, input, now));
            next.Some? && Truthy(next.value.cursor) ==>
              var items := SearchRouter.ExploreSpec(t, caller, next.value, now).items;
              forall i :: 0 <= i < |items| ==> items[i].id < next.value.cursor.value
  {
    var next := NextPageInput(input, SearchRouter.ExploreSpec(t, caller, input, now));
    if next.Some? && Truthy(next.value.cursor) {
      SearchRouter.ExploreBelowCursor(t, caller, next.value, now);
    }
  }

  /** The `from:` token of `from:a_b` is the whole text; without `_` in the class it stops after `a`. */
  lemma FromUnderscoreToken()
    ensures Matches("from:a_b", FromPrefix, IsWordChar) == ["from:a_b"]
    ensures Remove("from:a_b", FromPrefix, IsWordChar) == []
    ensures MatchAt("from:a_b", FromPrefix, IsAlnum) == 6
  {
    var q := "from:a_b";
    assert StartsWith(q, FromPrefix);
    assert RunLength(q, 5, IsWordChar) == 3;
    assert MatchAt(q, FromPrefix, IsWordChar) == 8;
    var tail := q[8..];
    assert |tail| == 0;
    assert q[..8] == q;
    assert Matches(q, FromPrefix, IsWordChar) == [q] + Matches(tail, FromPrefix, IsWordChar);
    assert Remove(q, FromPrefix, IsWordChar) == Remove(tail, FromPrefix, IsWordChar);
    assert RunLength(q, 5, IsAlnum) == 1;
  }

  /** `_b` holds no token of either pattern. */
  lemma UnderscoreTailKept()
    ensures Remove("_b", FromPrefix, IsAlnum) == "_b"
    ensures Remove("_b", TagPrefix, IsAlnum) == "_b"
  {
    var rest: string := "_b";
    var b: string := "b";
    assert rest[1..] == b;
    assert |b[1..]| == 0;
    assert MatchAt(b, FromPrefix, IsAlnum) == 0 && MatchAt(b, TagPrefix, IsAlnum) == 0;
    assert Remove(b, FromPrefix, IsAlnum) == b && Remove(b, TagPrefix, IsAlnum) == b;
    assert rest[..1] != TagPrefix && |rest| < |FromPrefix|;
    assert MatchAt(rest, FromPrefix, IsAlnum) == 0 && MatchAt(rest, TagPrefix, IsAlnum) == 0;
  }

  /** The as-written `from:` removal of `from:a_b` leaves `_b`. */
  lemma UnderscoreRemovalAsWritten()
    ensures Remove("from:a_b", FromPrefix, IsAlnum) == "_b"
  {
    var q := "from:a_b";
    FromUnderscoreToken();
    UnderscoreTailKept();
    assert q[6..] == "_b";
  }

  /**
   * For `from:a_b` the filter is the whole token, but the removal stops at `_` and leaves `_b` in the
   * clean query.
   */
  lemma UnderscoreLeftInQuery()
    ensures HandleInputChange("from:a_b") == Parsed(["from:a_b"], "_b")
  {
    UnderscoreFilters();
    UnderscoreClean();
  }

  lemma UnderscoreFilters()
    ensures HandleInputChange("from:a_b").filters == ["from:a_b"]
  {
    FromUnderscoreToken();
    MatchesNoHash("from:a_b");
    FiltersFromMatches("from:a_b", ["from:a_b"], []);
  }

  /** The filters are the `from:` matches followed by the `#` matches. */
  lemma FiltersFromMatches(query: string, u: seq<string>, h: seq<string>)
    requires Matches(query, FromPrefix, IsWordChar) == u && Matches(query, TagPrefix, IsAlnum) == h
    ensures HandleInputChange(query).filters == u + h
  {
  }

  lemma UnderscoreClean()
    ensures HandleInputChange("from:a_b").cleanQuery == "_b"
  {
    UnderscoreRemovalAsWritten();
    UnderscoreTailKept();
    TrimUnderscore();
  }

  lemma TrimUnderscore()
    ensures Trim("_b") == "_b"
  {
    var rest: string := "_b";
    assert !IsSpace(rest[0]) && !IsSpace(rest[1]);
    assert TrimStart(rest) == rest;
    assert TrimEnd(rest) == rest;
  }

  /** A text without `#` holds no `#` token. */
  lemma {:induction false} MatchesNoHash(s: string)
    requires forall i :: 0 <= i < |s| ==> s[i] != '#'
    ensures Matches(s, TagPrefix, IsAlnum) == []
    decreases |s|
  {
    if |s| > 0 {
      assert !StartsWith(s, TagPrefix) by { assert s[..1][0] == s[0]; }
      MatchesNoHash(s[1..]);
    }
  }

  /** `handleInputChange` with the removal pattern matching the filter pattern, `from:[a-zA-Z0-9_]+`. */
  function HandleInputChangeFixed(query: string): (r: Parsed)
    ensures forall k :: 0 <= k < |r.filters| ==> IsToken(r.filters[k], FromPrefix, IsWordChar) || IsToken(r.filters[k], TagPrefix, IsAlnum)
  {
    var usernames := Matches(query, FromPrefix, IsWordChar);
    var hashtags := Matches(query, TagPrefix, IsAlnum);
    var cleaned := Remove(Remove(query, FromPrefix, IsWordChar), TagPrefix, IsAlnum);
    Parsed(usernames + hashtags, Trim(cleaned))
  }

  /**
   * With matching patterns the `from:` removal drops exactly the characters of the `from:` filters,
   * so no part of a username stays in the clean query.
   */
  lemma FixedRemovesUsernames(query: string)
    ensures |Remove(query, FromPrefix, IsWordChar)| == |query| - TotalLength(HandleInputChangeFixed(query).filters[..|Matches(query, FromPrefix, IsWordChar)|])
  {
    RemoveAccounts(query, FromPrefix, IsWordChar);
    var u := Matches(query, FromPrefix, IsWordChar);
    assert HandleInputChangeFixed(query).filters[..|u|] == u;
  }

  /** For `from:a_b` the fixed clean query is empty. */
  lemma FixedUnderscore()
    ensures HandleInputChangeFixed("from:a_b") == Parsed(["from:a_b"], "")
  {
    FromUnderscoreToken();
    MatchesNoHash("from:a_b");
  }
}
