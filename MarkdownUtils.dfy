/**
 * Loading the blog (src/utils/markdownUtils.ts): one post per markdown file,
 * its id taken from the file name, the list sorted newest first, and lookup by
 * id. Reading the files and parsing their front matter happen outside the
 * model: each file arrives as its path with the parsed attributes and body. A
 * date is an abstract calendar-day key, larger meaning later.
 */
module MarkdownUtils {
  import opened Wrappers
  import JsStrings

  /** The calendar day of a post; larger is later. */
  type DateKey = int

  /** The front-matter attributes of one file. */
  datatype FrontMatter = FrontMatter(title: string, date: DateKey, category: string,
                                     readTime: string, image: string, excerpt: string)

  /** One module of `import.meta.glob over the posts directory`, after `fm` parsed it. */
  datatype PostFile = PostFile(path: string, attributes: FrontMatter, body: string)

  datatype BlogPost = BlogPost(id: string, title: string, date: DateKey, category: string,
                               readTime: string, image: string, excerpt: string, content: string)

  /**
   * `path.split('/').pop()?.replace('.md', '') || ''`: the last `/`-separated
   * piece with its first `.md` removed. `split` always yields a piece, so the
   * optional chain never short-circuits, and the `|| ''` fallback only maps
   * the empty string to itself.
   */
  function PostId(path: string): (id: string)
    ensures '/' !in id
  {
    var pieces := JsStrings.Split(path, '/');
    JsStrings.ReplaceFirst(pieces[|pieces| - 1], ".md", "")
  }

  /**
   * A file `dir/stem.md` has id `stem` when the stem has no `/` and no `.md`
   * of its own (other dots, as in `v1.2-notes`, are fine).
   */
  lemma PostIdOfMarkdownFile(dir: string, stem: string)
    requires '/' !in stem
    requires forall j :: !JsStrings.OccursAt(stem, ".md", j)
    ensures PostId(dir + "/" + stem + ".md") == stem
  {
    var name := stem + ".md";
    assert '/' !in name by {
      forall i | 0 <= i < |name| ensures name[i] != '/' {
        if i < |stem| { assert name[i] == stem[i]; }
      }
    }
    assert dir + "/" + stem + ".md" == dir + ['/'] + name;
    JsStrings.SplitAtSeparator(dir, name, '/');
    JsStrings.SplitWithoutSeparator(name, '/');
    JsStrings.IndexOfAppended(stem, ".md");
    var r := JsStrings.ReplaceFirst(name, ".md", "");
    assert r[..|stem|] == name[..|stem|] == stem;
    assert r == r[..|stem|] + r[|stem|..];
  }

  /** The post file `/src/posts/kings-cup-rules.md` is served under the id `kings-cup-rules`. */
  lemma KingsCupRulesId()
    ensures PostId("/src/posts" + "/" + "kings-cup-rules" + ".md") == "kings-cup-rules"
  {
    var stem := "kings-cup-rules";
    assert '/' !in stem && '.' !in stem;
    forall j
      ensures !JsStrings.OccursAt(stem, ".md", j)
    {
      if 0 <= j && j + 3 <= |stem| {
        assert stem[j..j + 3][0] == stem[j];
      }
    }
    PostIdOfMarkdownFile("/src/posts", stem);
  }

  /** The record pushed for one file: the derived id, the attributes, the body as content. */
  function PostOf(file: PostFile): BlogPost
  {
    var a := file.attributes;
    BlogPost(PostId(file.path), a.title, a.date, a.category, a.readTime, a.image, a.excerpt, file.body)
  }

  /** The list the loop builds, one post per file in enumeration order. */
  function PostsOf(files: seq<PostFile>): seq<BlogPost>
  {
    seq(|files|, i requires 0 <= i < |files| => PostOf(files[i]))
  }

  ghost predicate SortedNewestFirst(posts: seq<BlogPost>)
  {
    forall i, j :: 0 <= i < j < |posts| ==> posts[i].date >= posts[j].date
  }

  /** The posts of day `day`, in order. */
  function OnDay(posts: seq<BlogPost>, day: DateKey): seq<BlogPost>
  {
    if posts == [] then []
    else (if posts[0].date == day then [posts[0]] else []) + OnDay(posts[1..], day)
  }

  /** Place `p` before the first post that is not later than it. */
  function InsertByDate(p: BlogPost, sorted: seq<BlogPost>): (r: seq<BlogPost>)
    ensures multiset(r) == multiset(sorted) + multiset{p}
  {
    if sorted == [] || sorted[0].date <= p.date then [p] + sorted
    else
      assert sorted == [sorted[0]] + sorted[1..];
      [sorted[0]] + InsertByDate(p, sorted[1..])
  }

  lemma {:induction false} InsertKeepsSorted(p: BlogPost, sorted: seq<BlogPost>)
    requires SortedNewestFirst(sorted)
    ensures SortedNewestFirst(InsertByDate(p, sorted))
    decreases |sorted|
  {
    if sorted != [] && sorted[0].date > p.date {
      var tail := InsertByDate(p, sorted[1..]);
      InsertKeepsSorted(p, sorted[1..]);
      var r := [sorted[0]] + tail;
      forall j | 0 < j < |r| ensures r[0].date >= r[j].date {
        var x := r[j];
        assert x == tail[j - 1];
        assert x in multiset(tail);
        assert x == p || x in multiset(sorted[1..]);
        if x != p {
          var k :| 0 <= k < |sorted[1..]| && sorted[1..][k] == x;
          assert sorted[k + 1] == x;
        }
      }
      assert InsertByDate(p, sorted) == r;
    }
  }

  /**
   * `posts.sort((a, b) => date(b) - date(a))`: newest first, and stable, as
   * Array.prototype.sort is, so posts of one day keep their order.
   */
  function SortByDateDesc(posts: seq<BlogPost>): (sorted: seq<BlogPost>)
    ensures multiset(sorted) == multiset(posts)
    ensures SortedNewestFirst(sorted)
  {
    if posts == [] then []
    else
      assert posts == [posts[0]] + posts[1..];
      var rest := SortByDateDesc(posts[1..]);
      InsertKeepsSorted(posts[0], rest);
      InsertByDate(posts[0], rest)
  }

  lemma {:induction false} OnDayConcat(a: seq<BlogPost>, b: seq<BlogPost>, day: DateKey)
    ensures OnDay(a + b, day) == OnDay(a, day) + OnDay(b, day)
    decreases |a|
  {
    if a == [] {
      assert a + b == b;
    } else {
      assert (a + b)[0] == a[0];
      assert (a + b)[1..] == a[1..] + b;
      OnDayConcat(a[1..], b, day);
    }
  }

  lemma {:induction false} OnDayInsert(p: BlogPost, sorted: seq<BlogPost>, day: DateKey)
    ensures OnDay(InsertByDate(p, sorted), day) == OnDay([p], day) + OnDay(sorted, day)
    decreases |sorted|
  {
    if sorted == [] || sorted[0].date <= p.date {
      assert InsertByDate(p, sorted) == [p] + sorted;
      OnDayConcat([p], sorted, day);
    } else {
      OnDayInsert(p, sorted[1..], day);
      OnDayInsertLater(p, sorted, day);
    }
  }

  /** The step of `OnDayInsert` where `p` goes behind the head of the list. */
  lemma OnDayInsertLater(p: BlogPost, sorted: seq<BlogPost>, day: DateKey)
    requires sorted != [] && sorted[0].date > p.date
    requires OnDay(InsertByDate(p, sorted[1..]), day) == OnDay([p], day) + OnDay(sorted[1..], day)
    ensures OnDay(InsertByDate(p, sorted), day) == OnDay([p], day) + OnDay(sorted, day)
  {
    var h, q, r := OnDay([sorted[0]], day), OnDay([p], day), OnDay(sorted[1..], day);
    OnDayBehindHead(p, sorted, day);
    OnDayCons(sorted, day);
    // `sorted[0]` is strictly later than `p`, so at most one of them is on `day`.
    OnDaySingle(sorted[0], day);
    OnDaySingle(p, day);
    SwapAroundEmpty(h, q, r);
  }

  lemma OnDayBehindHead(p: BlogPost, sorted: seq<BlogPost>, day: DateKey)
    requires sorted != [] && sorted[0].date > p.date
    ensures OnDay(InsertByDate(p, sorted), day) == OnDay([sorted[0]], day) + OnDay(InsertByDate(p, sorted[1..]), day)
  {
    assert InsertByDate(p, sorted) == [sorted[0]] + InsertByDate(p, sorted[1..]);
    OnDayConcat([sorted[0]], InsertByDate(p, sorted[1..]), day);
  }

  lemma OnDayCons(posts: seq<BlogPost>, day: DateKey)
    requires posts != []
    ensures OnDay(posts, day) == OnDay([posts[0]], day) + OnDay(posts[1..], day)
  {
    assert posts == [posts[0]] + posts[1..];
    OnDayConcat([posts[0]], posts[1..], day);
  }

  lemma SwapAroundEmpty(h: seq<BlogPost>, q: seq<BlogPost>, r: seq<BlogPost>)
    requires h == [] || q == []
    ensures h + (q + r) == q + (h + r)
  {
    if h == [] {
      assert h + (q + r) == q + r;
      assert h + r == r;
    } else {
      assert q + (h + r) == h + r;
      assert h + (q + r) == h + r;
    }
  }

  lemma OnDaySingle(x: BlogPost, day: DateKey)
    ensures OnDay([x], day) == if x.date == day then [x] else []
  {
    assert [x][1..] == [];
  }

  /** The sort is stable: for every day, the posts of that day come out in the order they went in. */
  lemma {:induction false} SortIsStable(posts: seq<BlogPost>, day: DateKey)
    ensures OnDay(SortByDateDesc(posts), day) == OnDay(posts, day)
    decreases |posts|
  {
    if posts != [] {
      SortIsStable(posts[1..], day);
      OnDayInsert(posts[0], SortByDateDesc(posts[1..]), day);
      OnDayConcat([posts[0]], posts[1..], day);
      assert posts == [posts[0]] + posts[1..];
    }
  }

  /**
   * `getAllPosts`: push one post per file, then sort newest first. The files
   * arrive in the order `for ... in` enumerates the glob's keys.
   */
  method GetAllPosts(files: seq<PostFile>) returns (posts: seq<BlogPost>)
    ensures |posts| == |files|
    ensures multiset(posts) == multiset(PostsOf(files))
    ensures SortedNewestFirst(posts)
    ensures posts == SortByDateDesc(PostsOf(files))
  {
    var built: seq<BlogPost> := [];
    for i := 0 to |files|
      invariant |built| == i
      invariant forall k :: 0 <= k < i ==> built[k] == PostOf(files[k])
    {
      var file := files[i];
      var id := PostId(file.path);
      built := built + [BlogPost(id, file.attributes.title, file.attributes.date, file.attributes.category,
                                 file.attributes.readTime, file.attributes.image, file.attributes.excerpt,
                                 file.body)];
    }
    assert built == PostsOf(files);
    posts := SortByDateDesc(built);
    assert |multiset(posts)| == |multiset(built)|;
  }

  /** `allPosts.find(p => p.id === id)`. */
  function FindById(posts: seq<BlogPost>, id: string): (r: Option<BlogPost>)
    ensures r.None? <==> forall i :: 0 <= i < |posts| ==> posts[i].id != id
    ensures r.Some? ==> r.value.id == id && r.value in posts
    ensures forall i :: (0 <= i < |posts| && posts[i].id == id &&
                         forall j :: 0 <= j < i ==> posts[j].id != id) ==> r == Some(posts[i])
  {
    if posts == [] then None
    else if posts[0].id == id then Some(posts[0])
    else
      var r := FindById(posts[1..], id);
      assert forall i :: 1 <= i < |posts| ==> posts[i] == posts[1..][i - 1];
      r
  }

  /**
   * `getPostById`: load every post and return the first of the sorted list
   * with that id, or nothing when no file yields that id.
   */
  method GetPostById(files: seq<PostFile>, id: string) returns (post: Option<BlogPost>)
    ensures post.None? <==> forall i :: 0 <= i < |files| ==> PostId(files[i].path) != id
    ensures post.Some? ==> post.value.id == id && post.value in PostsOf(files)
    ensures post == FindById(SortByDateDesc(PostsOf(files)), id)
  {
    var allPosts := GetAllPosts(files);
    post := FindById(allPosts, id);
    FindByIdUnderPermutation(allPosts, PostsOf(files), id);
    assert forall i :: 0 <= i < |files| ==> PostsOf(files)[i].id == PostId(files[i].path);
  }

  /** Whether an id is found, and where a found post comes from, do not depend on the order of the list. */
  lemma FindByIdUnderPermutation(a: seq<BlogPost>, b: seq<BlogPost>, id: string)
    requires multiset(a) == multiset(b)
    ensures FindById(a, id).None? <==> FindById(b, id).None?
    ensures FindById(a, id).Some? ==> FindById(a, id).value in b
  {
    var r := FindById(a, id);
    if r.Some? {
      assert r.value in multiset(b);
    }
    var q := FindById(b, id);
    if q.Some? {
      assert q.value in multiset(a);
    }
  }
}
