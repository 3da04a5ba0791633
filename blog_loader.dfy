/** The blog loader: a post is parsed from its markdown file (optional
    frontmatter plus body), and a loader object keeps the post index and a
    cache of parsed posts filled by fetches. Each fetch is an input: its
    outcome is passed to the method that would perform it. */
module Blog {
  import opened Wrappers
  import opened JsText
  import opened Markdown
  import opened Frontmatter

  /** A parsed post: the plain object `parseMarkdown` returns, as a map
      from property name to string. */
  type Post = map<string, string>

  /** One entry of the post index (`/blog/index.json` or the fallback). */
  datatype PostMeta = PostMeta(id: string, title: string, date: string, category: string,
                               readTime: string, excerpt: string)

  const IndexUrl: string := "/blog/index.json"

  /** The URL `getPost` fetches for `postId`; the id can be read back from
      it, so different posts are fetched from different URLs. */
  function PostUrl(postId: string): (url: string)
    ensures |url| == |postId| + 15 && url[12..|url| - 3] == postId
  {
    "/blog/posts/" + postId + ".md"
  }

  /** `getFallbackPosts`: the two posts listed when the index cannot be
      loaded. The long excerpts are written as concatenations of short
      pieces, which the verifier handles far more cheaply than one long
      literal. */
  function FallbackPosts(): (list: seq<PostMeta>)
    ensures |list| == 2
    ensures list[0].id == "event-driven" && list[1].id == "self-hosting"
    ensures list[0].date == "2024.12.20" && list[1].date == "2024.11.08"
  {
    [ PostMeta("event-driven",
               "Event-Driven " + "Architecture " + "with " + "NATS " + "JetStream",
               "2024.12.20", "Platform " + "Engineering", "10 min read",
               "How " + "we " + "achieved " + "zero " + "event " + "loss " +
               "and " + "real-time " + "data " + "processing " + "by " + "migrating " +
               "to " + "NATS " + "JetStream " + "across " + "our " + "microservices..."),
      PostMeta("self-hosting",
               "Self-Hosting " + "AI " + "Models " + "on " + "Kubernetes",
               "2024.11.08", "DevOps", "12 min read",
               "A " + "guide " + "to " + "deploying " + "and " + "scaling " +
               "LLMs " + "on " + "your " + "own " + "K8s " + "cluster, " +
               "including " + "resource " + "optimization " + "and " + "cost " + "analysis...") ]
  }

  /** `parseMarkdown(markdown, postId)`. Without frontmatter the post gets
      default metadata and the whole document as content; with frontmatter
      the object is `{id: postId, ...frontmatter, content}`, so a
      frontmatter `id` overrides the post id, `content` always comes from
      the body, and no default is added. */
  function ParseMarkdown(markdown: string, postId: string): (post: Post)
    ensures "id" in post && "content" in post
  {
    match SplitFrontmatter(markdown)
    case None =>
      map["id" := postId, "title" := "Untitled Post", "content" := MarkdownToHtml(markdown),
          "date" := "Unknown", "category" := "General", "readTime" := "5 min read"]
    case Some(sections) =>
      Merged(postId, FrontmatterOf(sections.front), MarkdownToHtml(sections.body))
  }

  /** `{id: postId, ...fm, content: html}`: later properties win. */
  function Merged(postId: string, fm: map<string, string>, html: string): (post: Post)
    ensures forall k :: k in post <==> k == "id" || k == "content" || k in fm
    ensures post["content"] == html
    ensures post["id"] == (if "id" in fm then fm["id"] else postId)
    ensures forall k <- fm | k != "content" :: post[k] == fm[k]
  {
    (map["id" := postId] + fm)["content" := html]
  }

  /** A document that does not start with `---\n`, or has no `\n---\n` after
      it, is a post with the default metadata and all of it as content. */
  lemma ParseWithoutFrontmatter(markdown: string, postId: string)
    requires !(Opening <= markdown) || forall j: nat :: 4 <= j ==> !OccursAt(markdown, Closing, j)
    ensures ParseMarkdown(markdown, postId)
         == map["id" := postId, "title" := "Untitled Post", "content" := MarkdownToHtml(markdown),
                "date" := "Unknown", "category" := "General", "readTime" := "5 min read"]
  {
  }

  /** A document made of a frontmatter block and a body: the post has the
      id (or the block's `id`), every key of the block, and the body's HTML
      as content, and nothing else; in particular no default metadata. */
  lemma ParseWithFrontmatter(front: string, body: string, postId: string)
    requires forall i: nat :: !OccursAt(front + "\n---", Closing, i)
    ensures var post := ParseMarkdown(Opening + front + Closing + body, postId);
            var fm := FrontmatterOf(front);
            && post["content"] == MarkdownToHtml(body)
            && (forall k :: k in post <==> k == "id" || k == "content" || k in fm)
            && post["id"] == (if "id" in fm then fm["id"] else postId)
            && (forall k <- fm | k != "content" :: post[k] == fm[k])
  {
    SplitAssembled(front, body);
    ParseSplit(Opening + front + Closing + body, postId, Sections(front, body));
  }

  /** A document that splits into a block and a body is parsed by merging. */
  lemma ParseSplit(markdown: string, postId: string, sections: Sections)
    requires SplitFrontmatter(markdown) == Some(sections)
    ensures ParseMarkdown(markdown, postId)
         == Merged(postId, FrontmatterOf(sections.front), MarkdownToHtml(sections.body))
  {
  }

  /** A block whose lines never set `title` gives a post without a title. */
  lemma NoDefaultTitle(front: string, body: string, postId: string)
    requires forall i: nat :: !OccursAt(front + "\n---", Closing, i)
    requires forall i :: 0 <= i < |Split(Trim(front), '\n')| ==> !Sets(Parsed(Split(Trim(front), '\n')), i, "title")
    ensures "title" !in ParseMarkdown(Opening + front + Closing + body, postId)
  {
    ParseWithFrontmatter(front, body, postId);
    FieldsOfKeys(Split(Trim(front), '\n'), "title");
  }

  /** A block on one line cannot hold the closing delimiter. */
  lemma OneLineFront(front: string)
    requires '\n' !in front
    ensures forall i: nat :: !OccursAt(front + "\n---", Closing, i)
  {
    var w := front + "\n---";
    forall i: nat ensures !OccursAt(w, Closing, i) {
      if i + 5 <= |w| {
        assert i < |front|;
        assert w[i] == front[i] && front[i] in front;
        assert w[i..i + 5][0] != Closing[0];
      }
    }
  }

  /** The post of `---\ntitle: "Hi"\n---\n` followed by a body. */
  lemma TitledPost(body: string, postId: string)
    ensures ParseMarkdown("---\ntitle: \"Hi\"\n---\n" + body, postId)
         == map["id" := postId, "title" := "Hi", "content" := MarkdownToHtml(body)]
  {
    var front := "title: \"Hi\"";
    TitledDocument(body);
    TitleLineIsOneLine();
    OneLineFront(front);
    SplitAssembled(front, body);
    QuotedTitle();
    MergedPost(postId, "title", "Hi", MarkdownToHtml(body));
  }

  lemma MergedPost(postId: string, key: string, value: string, html: string)
    requires key != "id" && key != "content"
    ensures Merged(postId, map[key := value], html)
         == map["id" := postId, key := value, "content" := html]
  {
  }

  lemma TitledDocument(body: string)
    ensures "---\ntitle: \"Hi\"\n---\n" + body == Opening + "title: \"Hi\"" + Closing + body
  {
    assert Opening + "title: \"Hi\"" + Closing == "---\ntitle: \"Hi\"\n---\n";
  }

  /** The loader object: the post index, the cache of parsed posts, the
      initialisation flag, and the URLs it has fetched so far. */
  class BlogLoader {
    var posts: map<string, Post>
    var postList: seq<PostMeta>
    var initialized: bool
    var requests: seq<string>

    constructor()
      ensures posts == map[] && postList == [] && !initialized && requests == []
    {
      posts := map[];
      postList := [];
      initialized := false;
      requests := [];
    }

    /** `init`: on the first call, fetch the index; an ok response is
        adopted, a failed or throwing one gives the fallback list. Later
        calls do nothing. */
    method Init(index: Fetched<seq<PostMeta>>)
      modifies this
      ensures initialized
      ensures old(initialized) ==> unchanged(this)
      ensures !old(initialized) ==> postList == (if index.Ok? then index.body else FallbackPosts())
      ensures !old(initialized) ==> requests == old(requests) + [IndexUrl]
      ensures posts == old(posts)
    {
      if initialized {
        return;
      }
      requests := requests + [IndexUrl];
      match index {
        case Ok(body) =>
          postList := body;
        case NotOk =>
          postList := FallbackPosts();
        case Throws =>
          postList := FallbackPosts();
      }
      initialized := true;
    }

    /** `getPosts`: the index, after `init`. */
    method GetPosts(index: Fetched<seq<PostMeta>>) returns (list: seq<PostMeta>)
      modifies this
      ensures initialized && list == postList
      ensures postList == (if old(initialized) then old(postList)
                           else if index.Ok? then index.body else FallbackPosts())
      ensures requests == old(requests) + (if old(initialized) then [] else [IndexUrl])
      ensures posts == old(posts)
    {
      Init(index);
      list := postList;
    }

    /** `getPost`: after `init`, a cached post is returned without a fetch;
        otherwise the post's file is fetched, and only an ok response is
        parsed, cached under `postId` and returned. A failure gives `None`
        (the source's `null`) and leaves the cache as it was. */
    method GetPost(postId: string, index: Fetched<seq<PostMeta>>, response: Fetched<string>)
      returns (r: Option<Post>)
      modifies this
      ensures initialized
      ensures postList == (if old(initialized) then old(postList)
                           else if index.Ok? then index.body else FallbackPosts())
      ensures requests == old(requests) + (if old(initialized) then [] else [IndexUrl])
                                        + (if postId in old(posts) then [] else [PostUrl(postId)])
      ensures postId in old(posts) ==> r == Some(old(posts)[postId]) && posts == old(posts)
      ensures postId !in old(posts) && response.Ok? ==>
                r == Some(ParseMarkdown(response.body, postId)) && posts == old(posts)[postId := r.value]
      ensures postId !in old(posts) && !response.Ok? ==> r == None && posts == old(posts)
    {
      Init(index);
      if postId in posts {
        return Some(posts[postId]);
      }
      requests := requests + [PostUrl(postId)];
      match response {
        case Ok(markdown) =>
          var post := ParseMarkdown(markdown, postId);
          posts := posts[postId := post];
          r := Some(post);
        case NotOk =>
          r := None;
        case Throws =>
          r := None;
      }
    }

  }

  /** A second `getPost` of the same id is served from the cache: it gives
      the same post and fetches nothing more. */
  method CachedSecondRead(postId: string, markdown: string, response: Fetched<string>)
    returns (first: Option<Post>, second: Option<Post>, fetched: seq<string>)
    ensures first == second == Some(ParseMarkdown(markdown, postId))
    ensures fetched == [IndexUrl, PostUrl(postId)]
  {
    var loader := new BlogLoader();
    first := loader.GetPost(postId, NotOk, Ok(markdown));
    second := loader.GetPost(postId, Throws, response);
    fetched := loader.requests;
  }

  /** A failed fetch is not cached: the next `getPost` of that id fetches
      again, and the index, once loaded, is not fetched again. */
  method RetryAfterFailure(postId: string, markdown: string)
    returns (first: Option<Post>, second: Option<Post>, fetched: seq<string>, list: seq<PostMeta>)
    ensures first == None && second == Some(ParseMarkdown(markdown, postId))
    ensures fetched == [IndexUrl, PostUrl(postId), PostUrl(postId)]
    ensures list == FallbackPosts()
  {
    var loader := new BlogLoader();
    first := loader.GetPost(postId, NotOk, Throws);
    assert loader.requests == [IndexUrl] + [PostUrl(postId)];
    second := loader.GetPost(postId, Ok([]), Ok(markdown));
    assert loader.requests == [IndexUrl] + [PostUrl(postId)] + [PostUrl(postId)];
    fetched := loader.requests;
    list := loader.postList;
  }
}
