/**
 * The blog list page (pages/Blog.tsx): the posts shown are the loaded posts
 * filtered by the selected category and a case-insensitive search over title
 * and excerpt.
 */
module Blog {
  import opened MarkdownUtils
  import opened JsStrings
  import opened Sequences

  /** The category chip that selects every category. */
  const AllCategories: string := "all"

  /** The two pieces of React state the filter reads. */
  datatype SearchState = SearchState(selectedCategory: string, searchQuery: string)

  /** The state on first render. */
  const InitialSearch: SearchState := SearchState(AllCategories, "")

  /** The "clear search" button: empty query and every category, whatever was selected. */
  function ClearSearch(state: SearchState): (cleared: SearchState)
    ensures cleared == InitialSearch
  {
    state.(selectedCategory := AllCategories, searchQuery := "")
  }

  predicate MatchesCategory(post: BlogPost, category: string)
  {
    category == AllCategories || post.category == category
  }

  predicate MatchesSearch(post: BlogPost, query: string)
  {
    Includes(ToLower(post.title), ToLower(query)) || Includes(ToLower(post.excerpt), ToLower(query))
  }

  /** The predicate passed to `posts.filter`. */
  predicate Shown(post: BlogPost, state: SearchState)
  {
    MatchesCategory(post, state.selectedCategory) && MatchesSearch(post, state.searchQuery)
  }

  /**
   * `filteredPosts`: the posts the predicate accepts, in their original
   * order, each as many times as it occurs.
   */
  function FilteredPosts(posts: seq<BlogPost>, state: SearchState): (shown: seq<BlogPost>)
    ensures IsSubsequence(shown, posts)
    ensures forall p :: p in shown <==> p in posts && Shown(p, state)
    ensures forall p :: multiset(shown)[p] == if Shown(p, state) then multiset(posts)[p] else 0
  {
    if posts == [] then []
    else
      var rest := FilteredPosts(posts[1..], state);
      assert posts == [posts[0]] + posts[1..];
      if Shown(posts[0], state) then
        assert ([posts[0]] + rest)[1..] == rest;
        [posts[0]] + rest
      else rest
  }

  /** Every string includes the empty string. */
  lemma IncludesEmpty(s: string)
    ensures Includes(s, "")
  {
    assert s[..0] == "";
  }

  /**
   * With every category selected and an empty query, nothing is filtered out:
   * the page's first render and the state after "clear search" list all posts.
   */
  lemma {:induction false} ClearedSearchShowsAll(posts: seq<BlogPost>, state: SearchState)
    ensures FilteredPosts(posts, ClearSearch(state)) == posts
    decreases |posts|
  {
    if posts != [] {
      var p := posts[0];
      IncludesEmpty(ToLower(p.title));
      assert ToLower(InitialSearch.searchQuery) == "";
      ClearedSearchShowsAll(posts[1..], state);
      assert posts == [p] + posts[1..];
    }
  }

  /** The query is compared lower-cased, so its case does not matter. */
  lemma SearchIgnoresQueryCase(posts: seq<BlogPost>, category: string, query: string)
    ensures FilteredPosts(posts, SearchState(category, ToLower(query)))
         == FilteredPosts(posts, SearchState(category, query))
  {
    ToLowerIdempotent(query);
    assert forall p :: Shown(p, SearchState(category, ToLower(query))) == Shown(p, SearchState(category, query));
    FilterRespectsPredicate(posts, SearchState(category, ToLower(query)), SearchState(category, query));
  }

  /** Two states that accept the same posts show the same list. */
  lemma {:induction false} FilterRespectsPredicate(posts: seq<BlogPost>, s1: SearchState, s2: SearchState)
    requires forall p :: Shown(p, s1) == Shown(p, s2)
    ensures FilteredPosts(posts, s1) == FilteredPosts(posts, s2)
    decreases |posts|
  {
    if posts != [] {
      FilterRespectsPredicate(posts[1..], s1, s2);
    }
  }
}
