/**
 * Content loading for blog posts and puzzles, for the part that shapes lists:
 * slugs from a directory listing, the record built from one loaded file, and
 * the lists of all posts (newest first) and all puzzles (listing order).
 *
 * Reading a file, parsing its frontmatter and parsing a date are inputs:
 * `readFile` gives a file's text or None where reading throws, `frontmatter`
 * gives the parsed frontmatter or None where compiling fails, and `timeOf`
 * gives the timestamp of a date string.
 */
module Mdx {
  import opened Wrappers

  const MdxExtension := ".mdx"

  // ---------------------------------------------------------------------------
  // Slugs

  predicate IsMdxFile(name: string) {
    |name| >= |MdxExtension| && name[|name| - |MdxExtension|..] == MdxExtension
  }

  /** The names of a listing that end in ".mdx", in listing order. */
  function MdxFiles(names: seq<string>): (files: seq<string>)
    ensures |files| <= |names|
    ensures forall f :: f in files ==> IsMdxFile(f)
    ensures forall f :: multiset(files)[f] == if IsMdxFile(f) then multiset(names)[f] else 0
  {
    if names == [] then []
    else
      assert names == [names[0]] + names[1..];
      (if IsMdxFile(names[0]) then [names[0]] else []) + MdxFiles(names[1..])
  }

  /** Filtering a listing keeps its order: the filter of a concatenation is the concatenation of the filters. */
  lemma {:induction false} MdxFilesConcat(a: seq<string>, b: seq<string>)
    ensures MdxFiles(a + b) == MdxFiles(a) + MdxFiles(b)
  {
    if a != [] {
      assert (a + b)[1..] == a[1..] + b;
      MdxFilesConcat(a[1..], b);
    } else {
      assert a + b == b;
    }
  }

  /** `file.replace(/\.mdx$/, '')` on a name that ends in ".mdx": only the final extension goes. */
  function StripMdx(file: string): (slug: string)
    requires IsMdxFile(file)
    ensures slug + MdxExtension == file
  {
    var slug := file[..|file| - |MdxExtension|];
    assert slug + MdxExtension == file;
    slug
  }

  /**
   * `getBlogPostSlugs` and `getPuzzleSlugs` over a directory listing: one
   * slug per ".mdx" name, in listing order, each giving back its file name.
   */
  function Slugs(names: seq<string>): (slugs: seq<string>)
    ensures |slugs| == |MdxFiles(names)|
    ensures forall i :: 0 <= i < |slugs| ==> slugs[i] + MdxExtension == MdxFiles(names)[i]
  {
    var files := MdxFiles(names);
    seq(|files|, i requires 0 <= i < |files| => StripMdx(files[i]))
  }

  /** Slugs of a concatenated listing are the slugs of its parts, in order. */
  lemma SlugsConcat(a: seq<string>, b: seq<string>)
    ensures Slugs(a + b) == Slugs(a) + Slugs(b)
  {
    MdxFilesConcat(a, b);
    var whole, left, right := Slugs(a + b), Slugs(a), Slugs(b);
    forall i | 0 <= i < |whole| ensures whole[i] == (left + right)[i] {
      if i < |left| {
        SameSlug(whole[i], left[i], MdxFiles(a)[i]);
      } else {
        SameSlug(whole[i], right[i - |left|], MdxFiles(b)[i - |left|]);
      }
    }
  }

  /** A file name determines its slug. */
  lemma SameSlug(s: string, t: string, file: string)
    requires s + MdxExtension == file && t + MdxExtension == file
    ensures s == t
  {
    assert s == file[..|s|];
    assert t == file[..|t|];
  }

  /** One name yields its slug when it ends in ".mdx" and nothing otherwise. */
  lemma SlugsSingle(name: string)
    ensures Slugs([name]) == if IsMdxFile(name) then [StripMdx(name)] else []
  {
    assert [name][1..] == [];
  }

  /** Only the trailing extension is removed. */
  lemma DoubleExtensionSlug()
    ensures Slugs(["a.mdx.mdx", "notes.md"]) == ["a.mdx"]
  {
    SlugsConcat(["a.mdx.mdx"], ["notes.md"]);
    assert ["a.mdx.mdx"] + ["notes.md"] == ["a.mdx.mdx", "notes.md"];
    SlugsSingle("a.mdx.mdx");
    SlugsSingle("notes.md");
    assert "notes.md"[|"notes.md"| - 4..] == "s.md";
    assert !IsMdxFile("notes.md");
    assert "a.mdx.mdx"[..|"a.mdx.mdx"| - |MdxExtension|] == "a.mdx";
  }

  // ---------------------------------------------------------------------------
  // Single items

  datatype BlogFrontmatter = BlogFrontmatter(title: string, date: string, author: string, excerpt: string)

  datatype BlogPost = BlogPost(slug: string, title: string, date: string, author: string, excerpt: string, content: string)

  datatype PuzzleFrontmatter = PuzzleFrontmatter(
    title: string, description: string, starterCode: Option<string>, starterCodeLanguage: Option<string>)

  datatype Puzzle = Puzzle(
    slug: string, title: string, description: string, content: string,
    starterCode: Option<string>, starterCodeLanguage: Option<string>)

  /**
   * `getBlogPostBySlug`: the post under the requested slug, its frontmatter
   * fields and the raw text of its file; None when reading or parsing fails.
   */
  function BlogPostBySlug(slug: string, readFile: string -> Option<string>,
                          frontmatter: string -> Option<BlogFrontmatter>): (post: Option<BlogPost>)
    ensures post.Some? <==>
              readFile(slug + MdxExtension).Some? && frontmatter(readFile(slug + MdxExtension).value).Some?
    ensures post.Some? ==>
              var text := readFile(slug + MdxExtension).value;
              var fm := frontmatter(text).value;
              && post.value.slug == slug && post.value.content == text
              && post.value.title == fm.title && post.value.date == fm.date
              && post.value.author == fm.author && post.value.excerpt == fm.excerpt
  {
    match readFile(slug + MdxExtension)
    case None => None
    case Some(text) =>
      match frontmatter(text)
      case None => None
      case Some(fm) => Some(BlogPost(slug, fm.title, fm.date, fm.author, fm.excerpt, text))
  }

  /**
   * `getPuzzleBySlug`: the puzzle under the requested slug, its frontmatter
   * fields (starter code optional) and the raw text; None when reading or parsing fails.
   */
  function PuzzleBySlug(slug: string, readFile: string -> Option<string>,
                        frontmatter: string -> Option<PuzzleFrontmatter>): (puzzle: Option<Puzzle>)
    ensures puzzle.Some? <==>
              readFile(slug + MdxExtension).Some? && frontmatter(readFile(slug + MdxExtension).value).Some?
    ensures puzzle.Some? ==>
              var text := readFile(slug + MdxExtension).value;
              var fm := frontmatter(text).value;
              && puzzle.value.slug == slug && puzzle.value.content == text
              && puzzle.value.title == fm.title && puzzle.value.description == fm.description
              && puzzle.value.starterCode == fm.starterCode
              && puzzle.value.starterCodeLanguage == fm.starterCodeLanguage
  {
    match readFile(slug + MdxExtension)
    case None => None
    case Some(text) =>
      match frontmatter(text)
      case None => None
      case Some(fm) => Some(Puzzle(slug, fm.title, fm.description, text, fm.starterCode, fm.starterCodeLanguage))
  }

  // ---------------------------------------------------------------------------
  // Lists

  /** `.filter((x) => x !== null)`: the loaded items, in order. */
  function Present<T(!new)>(loads: seq<Option<T>>): (items: seq<T>)
    ensures |items| <= |loads|
    ensures forall x :: multiset(items)[x] == multiset(loads)[Some(x)]
  {
    if loads == [] then []
    else
      assert loads == [loads[0]] + loads[1..];
      (if loads[0].Some? then [loads[0].value] else []) + Present(loads[1..])
  }

  /** Dropping failed loads keeps the order of the rest. */
  lemma {:induction false} PresentConcat<T(!new)>(a: seq<Option<T>>, b: seq<Option<T>>)
    ensures Present(a + b) == Present(a) + Present(b)
  {
    if a != [] {
      assert (a + b)[1..] == a[1..] + b;
      PresentConcat(a[1..], b);
    } else {
      assert a + b == b;
    }
  }

  /** `slugs.map(getBlogPostBySlug)`. */
  function LoadBlogPosts(slugs: seq<string>, readFile: string -> Option<string>,
                         frontmatter: string -> Option<BlogFrontmatter>): (loads: seq<Option<BlogPost>>)
    ensures |loads| == |slugs|
    ensures forall i :: 0 <= i < |slugs| ==> loads[i] == BlogPostBySlug(slugs[i], readFile, frontmatter)
  {
    if slugs == [] then []
    else [BlogPostBySlug(slugs[0], readFile, frontmatter)] + LoadBlogPosts(slugs[1..], readFile, frontmatter)
  }

  /** `slugs.map(getPuzzleBySlug)`. */
  function LoadPuzzles(slugs: seq<string>, readFile: string -> Option<string>,
                       frontmatter: string -> Option<PuzzleFrontmatter>): (loads: seq<Option<Puzzle>>)
    ensures |loads| == |slugs|
    ensures forall i :: 0 <= i < |slugs| ==> loads[i] == PuzzleBySlug(slugs[i], readFile, frontmatter)
  {
    if slugs == [] then []
    else [PuzzleBySlug(slugs[0], readFile, frontmatter)] + LoadPuzzles(slugs[1..], readFile, frontmatter)
  }

  lemma {:induction false} LoadPuzzlesConcat(a: seq<string>, b: seq<string>, readFile: string -> Option<string>,
                                             frontmatter: string -> Option<PuzzleFrontmatter>)
    ensures LoadPuzzles(a + b, readFile, frontmatter)
         == LoadPuzzles(a, readFile, frontmatter) + LoadPuzzles(b, readFile, frontmatter)
  {
    if a != [] {
      assert (a + b)[1..] == a[1..] + b;
      LoadPuzzlesConcat(a[1..], b, readFile, frontmatter);
    } else {
      assert a + b == b;
    }
  }

  /**
   * `getAllPuzzles`: every puzzle of the listing that loads, in listing order;
   * each is the one stored under its slug's file.
   */
  function AllPuzzles(names: seq<string>, readFile: string -> Option<string>,
                      frontmatter: string -> Option<PuzzleFrontmatter>): (puzzles: seq<Puzzle>)
    ensures |puzzles| <= |Slugs(names)|
    ensures forall p :: p in puzzles ==>
              p.slug in Slugs(names) && PuzzleBySlug(p.slug, readFile, frontmatter) == Some(p)
  {
    var slugs := Slugs(names);
    var loads := LoadPuzzles(slugs, readFile, frontmatter);
    var puzzles := Present(loads);
    assert forall p :: p in puzzles ==> p.slug in slugs && PuzzleBySlug(p.slug, readFile, frontmatter) == Some(p) by {
      forall p | p in puzzles
        ensures p.slug in slugs && PuzzleBySlug(p.slug, readFile, frontmatter) == Some(p)
      {
        assert multiset(puzzles)[p] > 0;
        assert Some(p) in multiset(loads);
        var i :| 0 <= i < |loads| && loads[i] == Some(p);
        assert loads[i] == PuzzleBySlug(slugs[i], readFile, frontmatter);
      }
    }
    puzzles
  }

  /** Puzzles of a concatenated listing are those of its parts, in order. */
  lemma AllPuzzlesConcat(a: seq<string>, b: seq<string>, readFile: string -> Option<string>,
                         frontmatter: string -> Option<PuzzleFrontmatter>)
    ensures AllPuzzles(a + b, readFile, frontmatter) == AllPuzzles(a, readFile, frontmatter) + AllPuzzles(b, readFile, frontmatter)
  {
    SlugsConcat(a, b);
    var sa, sb := Slugs(a), Slugs(b);
    LoadPuzzlesConcat(sa, sb, readFile, frontmatter);
    PresentConcat(LoadPuzzles(sa, readFile, frontmatter), LoadPuzzles(sb, readFile, frontmatter));
  }

  /** One name of the listing contributes its puzzle exactly when it is an ".mdx" file that loads. */
  lemma AllPuzzlesSingle(name: string, readFile: string -> Option<string>,
                         frontmatter: string -> Option<PuzzleFrontmatter>)
    ensures AllPuzzles([name], readFile, frontmatter)
         == if IsMdxFile(name) && PuzzleBySlug(StripMdx(name), readFile, frontmatter).Some?
            then [PuzzleBySlug(StripMdx(name), readFile, frontmatter).value]
            else []
  {
    SlugsSingle(name);
    var loads := LoadPuzzles(Slugs([name]), readFile, frontmatter);
    if IsMdxFile(name) {
      assert loads == [PuzzleBySlug(StripMdx(name), readFile, frontmatter)];
      assert loads[1..] == [];
    } else {
      assert loads == [];
    }
  }

  // ---------------------------------------------------------------------------
  // Newest first

  /** Each post is at least as recent as every post after it. */
  ghost predicate NewestFirst(posts: seq<BlogPost>, timeOf: string -> int) {
    forall i, j :: 0 <= i < j < |posts| ==> timeOf(posts[i].date) >= timeOf(posts[j].date)
  }

  /** The posts of one timestamp, in order. */
  function DatedAt(posts: seq<BlogPost>, t: int, timeOf: string -> int): (r: seq<BlogPost>)
    ensures forall p :: p in r ==> p in posts && timeOf(p.date) == t
  {
    if posts == [] then []
    else (if timeOf(posts[0].date) == t then [posts[0]] else []) + DatedAt(posts[1..], t, timeOf)
  }

  /** Puts a post before the first post not newer than it. */
  function InsertByDate(post: BlogPost, sorted: seq<BlogPost>, timeOf: string -> int): (r: seq<BlogPost>)
    ensures multiset(r) == multiset(sorted) + multiset{post}
    ensures |r| == |sorted| + 1
  {
    if sorted == [] then [post]
    else if timeOf(post.date) >= timeOf(sorted[0].date) then [post] + sorted
    else
      assert sorted == [sorted[0]] + sorted[1..];
      [sorted[0]] + InsertByDate(post, sorted[1..], timeOf)
  }

  /** A post at least as new as every post of a newest-first sequence can go in front of it. */
  lemma PrependNewest(x: BlogPost, s: seq<BlogPost>, timeOf: string -> int)
    requires NewestFirst(s, timeOf)
    requires forall y :: y in s ==> timeOf(x.date) >= timeOf(y.date)
    ensures NewestFirst([x] + s, timeOf)
  {
    forall i, j | 0 <= i < j < |[x] + s|
      ensures timeOf(([x] + s)[i].date) >= timeOf(([x] + s)[j].date)
    {
      if i == 0 {
        assert s[j - 1] in s;
      }
    }
  }

  lemma {:induction false} InsertByDateNewestFirst(post: BlogPost, sorted: seq<BlogPost>, timeOf: string -> int)
    requires NewestFirst(sorted, timeOf)
    ensures NewestFirst(InsertByDate(post, sorted, timeOf), timeOf)
  {
    if sorted == [] {
    } else if timeOf(post.date) >= timeOf(sorted[0].date) {
      forall y | y in sorted ensures timeOf(post.date) >= timeOf(y.date) {
        var k :| 0 <= k < |sorted| && sorted[k] == y;
        if k > 0 {
          assert timeOf(sorted[0].date) >= timeOf(sorted[k].date);
        }
      }
      PrependNewest(post, sorted, timeOf);
    } else {
      var tail := sorted[1..];
      assert NewestFirst(tail, timeOf) by {
        forall i, j | 0 <= i < j < |tail| ensures timeOf(tail[i].date) >= timeOf(tail[j].date) {
          assert tail[i] == sorted[i + 1] && tail[j] == sorted[j + 1];
        }
      }
      InsertByDateNewestFirst(post, tail, timeOf);
      var rest := InsertByDate(post, tail, timeOf);
      forall y | y in rest ensures timeOf(sorted[0].date) >= timeOf(y.date) {
        assert y in multiset(rest);
        if y != post {
          assert y in multiset(tail);
          var k :| 0 <= k < |tail| && tail[k] == y;
          assert sorted[k + 1] == y;
        }
      }
      PrependNewest(sorted[0], rest, timeOf);
    }
  }

  /**
   * `.sort((a, b) => time(b) - time(a))`, a stable sort: newest first,
   * the same posts, and posts of equal time in their original order.
   */
  function SortNewestFirst(posts: seq<BlogPost>, timeOf: string -> int): (r: seq<BlogPost>)
    ensures NewestFirst(r, timeOf)
    ensures multiset(r) == multiset(posts)
    ensures |r| == |posts|
  {
    if posts == [] then []
    else
      assert posts == [posts[0]] + posts[1..];
      var sortedTail := SortNewestFirst(posts[1..], timeOf);
      InsertByDateNewestFirst(posts[0], sortedTail, timeOf);
      InsertByDate(posts[0], sortedTail, timeOf)
  }

  lemma DatedAtCons(x: BlogPost, s: seq<BlogPost>, t: int, timeOf: string -> int)
    ensures DatedAt([x] + s, t, timeOf) == (if timeOf(x.date) == t then [x] else []) + DatedAt(s, t, timeOf)
  {
    assert ([x] + s)[1..] == s;
  }

  lemma {:induction false} InsertByDateStable(post: BlogPost, sorted: seq<BlogPost>, t: int, timeOf: string -> int)
    ensures DatedAt(InsertByDate(post, sorted, timeOf), t, timeOf)
         == (if timeOf(post.date) == t then [post] else []) + DatedAt(sorted, t, timeOf)
  {
    if sorted == [] {
      DatedAtCons(post, [], t, timeOf);
      assert [post] + [] == [post];
    } else if timeOf(post.date) >= timeOf(sorted[0].date) {
      DatedAtCons(post, sorted, t, timeOf);
    } else {
      var head, tail := sorted[0], sorted[1..];
      var mine: seq<BlogPost> := if timeOf(post.date) == t then [post] else [];
      var theirs: seq<BlogPost> := if timeOf(head.date) == t then [head] else [];
      // A strictly newer head never shares the inserted post's timestamp.
      assert mine == [] || theirs == [];
      calc {
        DatedAt(InsertByDate(post, sorted, timeOf), t, timeOf);
        DatedAt([head] + InsertByDate(post, tail, timeOf), t, timeOf);
        { DatedAtCons(head, InsertByDate(post, tail, timeOf), t, timeOf); }
        theirs + DatedAt(InsertByDate(post, tail, timeOf), t, timeOf);
        { InsertByDateStable(post, tail, t, timeOf); }
        theirs + (mine + DatedAt(tail, t, timeOf));
        mine + (theirs + DatedAt(tail, t, timeOf));
        { DatedAtCons(head, tail, t, timeOf); assert sorted == [head] + tail; }
        mine + DatedAt(sorted, t, timeOf);
      }
    }
  }

  /** Sorting keeps the order of the posts of each timestamp. */
  lemma {:induction false} SortNewestFirstStable(posts: seq<BlogPost>, t: int, timeOf: string -> int)
    ensures DatedAt(SortNewestFirst(posts, timeOf), t, timeOf) == DatedAt(posts, t, timeOf)
  {
    if posts != [] {
      SortNewestFirstStable(posts[1..], t, timeOf);
      InsertByDateStable(posts[0], SortNewestFirst(posts[1..], timeOf), t, timeOf);
    }
  }

  lemma NewestFirstTail(r: seq<BlogPost>, timeOf: string -> int)
    requires r != [] && NewestFirst(r, timeOf)
    ensures NewestFirst(r[1..], timeOf)
  {
    forall i, j | 0 <= i < j < |r| - 1 ensures timeOf(r[1..][i].date) >= timeOf(r[1..][j].date) {
      assert r[1..][i] == r[i + 1] && r[1..][j] == r[j + 1];
    }
  }

  lemma HeadIsNewest(r: seq<BlogPost>, y: BlogPost, timeOf: string -> int)
    requires NewestFirst(r, timeOf) && y in r
    ensures timeOf(r[0].date) >= timeOf(y.date)
  {
    var k :| 0 <= k < |r| && r[k] == y;
    if k > 0 {
      assert timeOf(r[0].date) >= timeOf(r[k].date);
    }
  }

  /** The first post of a sequence is the first post of its own timestamp. */
  lemma HeadLeadsItsTimestamp(r: seq<BlogPost>, timeOf: string -> int)
    requires r != []
    ensures DatedAt(r, timeOf(r[0].date), timeOf) != []
    ensures DatedAt(r, timeOf(r[0].date), timeOf)[0] == r[0]
  {
    DatedAtCons(r[0], r[1..], timeOf(r[0].date), timeOf);
    assert r == [r[0]] + r[1..];
  }

  /** Two newest-first sequences that agree on every timestamp begin with the same post. */
  lemma SameNewest(r1: seq<BlogPost>, r2: seq<BlogPost>, timeOf: string -> int)
    requires r1 != [] && r2 != []
    requires NewestFirst(r1, timeOf) && NewestFirst(r2, timeOf)
    requires forall t :: DatedAt(r1, t, timeOf) == DatedAt(r2, t, timeOf)
    ensures r1[0] == r2[0]
  {
    var t1, t2 := timeOf(r1[0].date), timeOf(r2[0].date);
    HeadLeadsItsTimestamp(r1, timeOf);
    HeadLeadsItsTimestamp(r2, timeOf);
    assert DatedAt(r2, t1, timeOf)[0] in DatedAt(r2, t1, timeOf);
    HeadIsNewest(r2, DatedAt(r2, t1, timeOf)[0], timeOf);
    assert DatedAt(r1, t2, timeOf)[0] in DatedAt(r1, t2, timeOf);
    HeadIsNewest(r1, DatedAt(r1, t2, timeOf)[0], timeOf);
    assert t1 == t2;
  }

  /** Removing the same first post from two sequences that agree on a timestamp keeps them agreeing. */
  lemma SameAfterHead(r1: seq<BlogPost>, r2: seq<BlogPost>, t: int, timeOf: string -> int)
    requires r1 != [] && r2 != [] && r1[0] == r2[0]
    requires DatedAt(r1, t, timeOf) == DatedAt(r2, t, timeOf)
    ensures DatedAt(r1[1..], t, timeOf) == DatedAt(r2[1..], t, timeOf)
  {
    var head: seq<BlogPost> := if timeOf(r1[0].date) == t then [r1[0]] else [];
    DatedAtCons(r1[0], r1[1..], t, timeOf);
    DatedAtCons(r2[0], r2[1..], t, timeOf);
    assert r1 == [r1[0]] + r1[1..] && r2 == [r2[0]] + r2[1..];
    assert (head + DatedAt(r1[1..], t, timeOf))[|head|..] == DatedAt(r1[1..], t, timeOf);
    assert (head + DatedAt(r2[1..], t, timeOf))[|head|..] == DatedAt(r2[1..], t, timeOf);
  }

  /**
   * Newest-first order together with the order within each timestamp fixes
   * the whole sequence, so every stable sort by that comparator gives the
   * result of `SortNewestFirst`.
   */
  lemma {:induction false} NewestFirstUnique(r1: seq<BlogPost>, r2: seq<BlogPost>, timeOf: string -> int)
    requires NewestFirst(r1, timeOf) && NewestFirst(r2, timeOf)
    requires forall t :: DatedAt(r1, t, timeOf) == DatedAt(r2, t, timeOf)
    ensures r1 == r2
    decreases |r1|
  {
    if r1 == [] || r2 == [] {
      if r1 != [] {
        HeadLeadsItsTimestamp(r1, timeOf);
      } else if r2 != [] {
        HeadLeadsItsTimestamp(r2, timeOf);
      }
    } else {
      SameNewest(r1, r2, timeOf);
      forall t ensures DatedAt(r1[1..], t, timeOf) == DatedAt(r2[1..], t, timeOf) {
        SameAfterHead(r1, r2, t, timeOf);
      }
      NewestFirstTail(r1, timeOf);
      NewestFirstTail(r2, timeOf);
      NewestFirstUnique(r1[1..], r2[1..], timeOf);
      assert r1 == [r1[0]] + r1[1..] && r2 == [r2[0]] + r2[1..];
    }
  }

  /**
   * `getAllBlogPosts`: the posts of the listing that load, newest first, each
   * the one stored under its slug's file; no post is gained or lost.
   */
  function AllBlogPosts(names: seq<string>, readFile: string -> Option<string>,
                        frontmatter: string -> Option<BlogFrontmatter>, timeOf: string -> int): (posts: seq<BlogPost>)
    ensures NewestFirst(posts, timeOf)
    ensures multiset(posts) == multiset(Present(LoadBlogPosts(Slugs(names), readFile, frontmatter)))
    ensures forall p :: p in posts ==>
              p.slug in Slugs(names) && BlogPostBySlug(p.slug, readFile, frontmatter) == Some(p)
  {
    var slugs := Slugs(names);
    var loads := LoadBlogPosts(slugs, readFile, frontmatter);
    var posts := SortNewestFirst(Present(loads), timeOf);
    assert forall p :: p in posts ==> p.slug in slugs && BlogPostBySlug(p.slug, readFile, frontmatter) == Some(p) by {
      forall p | p in posts
        ensures p.slug in slugs && BlogPostBySlug(p.slug, readFile, frontmatter) == Some(p)
      {
        assert p in multiset(posts);
        assert multiset(Present(loads))[p] > 0;
        assert Some(p) in multiset(loads);
        var i :| 0 <= i < |loads| && loads[i] == Some(p);
        assert loads[i] == BlogPostBySlug(slugs[i], readFile, frontmatter);
      }
    }
    posts
  }

  /** The posts of each timestamp keep their listing order; with newest-first this fixes the result. */
  lemma AllBlogPostsStable(names: seq<string>, readFile: string -> Option<string>,
                           frontmatter: string -> Option<BlogFrontmatter>, timeOf: string -> int,
                           other: seq<BlogPost>)
    requires NewestFirst(other, timeOf)
    requires forall t :: DatedAt(other, t, timeOf)
                      == DatedAt(Present(LoadBlogPosts(Slugs(names), readFile, frontmatter)), t, timeOf)
    ensures other == AllBlogPosts(names, readFile, frontmatter, timeOf)
  {
    var loaded := Present(LoadBlogPosts(Slugs(names), readFile, frontmatter));
    forall t ensures DatedAt(AllBlogPosts(names, readFile, frontmatter, timeOf), t, timeOf) == DatedAt(other, t, timeOf) {
      SortNewestFirstStable(loaded, t, timeOf);
    }
    NewestFirstUnique(other, AllBlogPosts(names, readFile, frontmatter, timeOf), timeOf);
  }
}
