# Blog and art loaders, modelled in Dafny

This project models the two client-side loaders of a personal website.

**The blog loader** (`BlogLoader`):
- It fetches a post index, or falls back to a fixed list of two posts.
- It fetches a post's markdown file and parses it. The parse splits off an optional `---` frontmatter block, reads the block line by line into key/value pairs, and turns the body into HTML with a fixed chain of regular-expression replacements.
- It caches the parsed posts.

**The art loader** (`ArtLoader`):
- It keeps a registry of sketch factories and fetches a manifest of sketches, or falls back to two built-in ones.
- It adds one `<script>` tag per sketch source, skipping sources that already have one. A sketch script that loads runs, and registers its own factory with the loader (`art/sketches/neon-orbits.js:33`, `art/sketches/matrix-flow.js:36`).
- It renders a grid with one card per sketch.
- It replaces the running p5 instances with one instance per canvas whose sketch is registered, stopping at the first factory or `new p5` call that throws.

Files and modules:
- `wrappers.dfy` (`Wrappers`): `Option`, and `Fetched`, the outcome of a fetch (`Ok(body)`, `NotOk`, `Throws`).
- `js_text.dfy` (`JsText`): string primitives for the text the loaders handle.
  - `trim` and `split`, which `parseFrontmatter` calls, and `join`, their inverse.
  - The regular-expression classes `\s`, `\w`, `\d` and the line terminators.
  - `IndexOf` and `LastIndexOf`. The loaders never call `indexOf` or `lastIndexOf`: these two are helpers that model the searches the regular expressions perform (the lazy `[\s\S]*?` of the frontmatter and code-fence patterns, span bodies that run to the next delimiter, and the greedy `.*` of the list wrap).
- `replace.dfy` (`RegexReplace`): `String.prototype.replace` for the patterns the blog loader uses.
  - Each pattern is a hand-written matcher at one position (`MatchAt`).
  - `ReplaceAll` is the global scan: leftmost match first, no overlaps, one pass.
  - It also tracks whether `^` holds under the `m` flag.
- `markdown.dfy` (`Markdown`): `markdownToHtml` as the composition of its stages, in the source's order.
  - `HeadingLine` and `ItemLine` are line-by-line reference definitions, and theorems tie the scans to them.
  - Examples worked out in full: ```` ```js\nx\n``` ````, `**x**`, `*x*`, `Hello`, `a\n\nb`, `# T\nx` and the empty document.
- `frontmatter.dfy` (`Frontmatter`): the anchored frontmatter regular expression and `parseFrontmatter`. `parseFrontmatter` is a loop proved against the reference function `FrontmatterOf`.
- `blog_loader.dfy` (`Blog`): `parseMarkdown`, the fallback list and the `BlogLoader` class (`init`, `getPosts`, `getPost` with its cache).
- `art_loader.dfy` (`Art`): the `ArtLoader` class. The document it touches is modelled as abstract fields of the object: the script tags in the head, the grid's cards, and the `remove` calls made on instances.

Fetches and script loads are inputs. A method is given the outcome of the fetch or load it would perform, and the URLs it fetches are recorded in a `requests` field.

## Model

| member | source | states |
|---|---|---|
| JsText.TrimStart | blog/blog-loader.js:132 | the result is a suffix of the input; everything removed is `\s`; the result does not start with `\s` |
| JsText.TrimEnd | blog/blog-loader.js:132 | the result is a prefix of the input; everything removed is `\s`; the result does not end with `\s` |
| JsText.Trim | blog/blog-loader.js:132 | `trim()` output neither starts nor ends with `\s`, and is a segment of the input with only `\s` before and after it |
| JsText.Split | blog/blog-loader.js:132 | `split('\n')` gives at least one part, and no part holds the separator |
| JsText.JoinSplit | blog/blog-loader.js:132 | joining the parts of `split('\n')` with `\n` gives the text back |
| JsText.SplitJoin | blog/blog-loader.js:132 | splitting a joined list whose parts lack the separator gives the list back |
| JsText.IndexOf | blog/blog-loader.js:103 | the first occurrence at or after the start index; none before it; `None` only when there is none at all |
| RegexReplace.MatchAt | blog/blog-loader.js:153-188 | every pattern match is non-empty, fits in the text, and begins at a character the pattern can begin with |
| RegexReplace.ReplaceAll | blog/blog-loader.js:153-188 | a text in which no character can begin a match comes out of the global scan unchanged |
| RegexReplace.Replace | blog/blog-loader.js:153-188 | `text.replace(pattern, ...)` leaves a text unchanged when no character of it can begin a match |
| RegexReplace.InertAt | blog/blog-loader.js:153-188 | the recursive "no match can begin here" condition holds exactly when no position of the text can begin a match |
| RegexReplace.LineAt | blog/blog-loader.js:153-155 | a `^marker(.*)$` match is non-empty and begins with the marker's first character |
| RegexReplace.FenceAt | blog/blog-loader.js:158 | a code-fence match is non-empty and begins with a backquote |
| RegexReplace.SpanAt | blog/blog-loader.js:161-165 | an inline-code, bold or italic match begins with the delimiter's first character |
| RegexReplace.UnwrapAt | blog/blog-loader.js:180-188 | a cleanup match is non-empty and begins where the pattern can begin |
| RegexReplace.CopyPrefix | blog/blog-loader.js:153-188 | text in which no match can begin is copied unchanged, and the scan continues with the right `^` state |
| RegexReplace.NoMatchUnchanged | blog/blog-loader.js:180-188 | a text in which the pattern matches at no position is left unchanged |
| RegexReplace.LineStartIrrelevant | blog/blog-loader.js:158-188 | patterns without `^` give the same result whether or not the scan starts at a line start |
| RegexReplace.MidLineCopy | blog/blog-loader.js:153-155 | where `^` does not hold, a line-anchored pattern copies text up to the next line terminator |
| RegexReplace.LineThen | blog/blog-loader.js:153-155 | a line-anchored pattern rewrites the first line as `RewriteLine` says and then goes on after it |
| RegexReplace.LineStep | blog/blog-loader.js:153-155 | `/^marker(.*)$/gm` rewrites a text's first line on its own; the text after the terminator starts a new line |
| RegexReplace.LastLine | blog/blog-loader.js:153-155 | a line-anchored pattern rewrites a text of one line as `RewriteLine` says |
| RegexReplace.SpanHit | blog/blog-loader.js:161-165 | `D x D`, where `x` is non-empty and lacks the delimiter's first character, becomes `open x close`, and the scan goes on after it |
| RegexReplace.SpanSound | blog/blog-loader.js:161-165 | every inline-code, bold or italic match is the delimiter, a non-empty run without the delimiter's first character, and the delimiter; the output is that run between the opening and closing tags |
| RegexReplace.FenceHit | blog/blog-loader.js:158 | a fence with an optional `\w` tag, a newline and a body in which no "```" starts before its end becomes `<pre><code>body</code></pre>` |
| RegexReplace.FenceSound | blog/blog-loader.js:158 | every fence match is "```", a `\w` tag, a newline, a body in which no "```" starts, and "```"; the output is that body inside `<pre><code>`…`</code></pre>` |
| RegexReplace.ClosedBefore | blog/blog-loader.js:158 | the text from the end of the opening line up to the first "```" after it holds no "```", so the lazy body stops there |
| RegexReplace.UnwrapHit | blog/blog-loader.js:180-188 | where `lead tag trail` occurs, the cleanup keeps only the tag text |
| RegexReplace.MatchAnywhere | blog/blog-loader.js:158-188 | only line-anchored patterns depend on whether `^` holds |
| Markdown.WrapList | blog/blog-loader.js:170 | without `<li>` or without `</li>` the text is unchanged; otherwise exactly one `<ul>` goes before the first `<li>` and one `</ul>` after the last `</li>`, provided the last closing tag does not start before the first opening tag ends |
| Markdown.Headings | blog/blog-loader.js:153-155 | the heading stage leaves a text without `#` unchanged |
| Markdown.CodeAndEmphasis | blog/blog-loader.js:158-165 | the code and emphasis stages leave a text without backquotes and asterisks unchanged |
| Markdown.Lists | blog/blog-loader.js:168-170 | the list stage leaves a text without `-`, digits and `<` unchanged |
| Markdown.Blockquotes | blog/blog-loader.js:173 | the blockquote stage leaves a text without `>` unchanged |
| Markdown.Paragraphs | blog/blog-loader.js:176-177 | a text without a line break becomes one paragraph `<p>`…`</p>` |
| Markdown.Cleanup | blog/blog-loader.js:180-188 | the cleanup leaves a text without `<` unchanged |
| Markdown.MarkdownToHtml | blog/blog-loader.js:149-191 | one line of prose `p` becomes `<p>p</p>` |
| Markdown.ReplaceEachAvoided | blog/blog-loader.js:153-188 | a chain of patterns that can only begin at certain characters leaves a text without those characters unchanged |
| Markdown.HeadingRulesOnLine | blog/blog-loader.js:153-155 | on one line, the three heading patterns together do what `HeadingLine` says |
| Markdown.HeadingsStep | blog/blog-loader.js:153-155 | the heading stage rewrites the first line as `HeadingLine` says and keeps the terminator |
| Markdown.HeadingsLast | blog/blog-loader.js:153-155 | the heading stage on a single line is `HeadingLine` |
| Markdown.HeadingsByLine | blog/blog-loader.js:153-155 | the heading stage rewrites each line of a text as `HeadingLine` says and keeps the newlines |
| Markdown.ItemRulesOnLine | blog/blog-loader.js:168-169 | on one line, the two item patterns together do what `ItemLine` says |
| Markdown.ItemsStep | blog/blog-loader.js:168-169 | the item stage rewrites the first line as `ItemLine` says and keeps the terminator |
| Markdown.ItemsLast | blog/blog-loader.js:168-169 | the item stage on a single line is `ItemLine` |
| Markdown.ItemsByLine | blog/blog-loader.js:168-169 | the item stage rewrites each line as `ItemLine` says |
| Markdown.OrdinalItem | blog/blog-loader.js:169 | `n. x`, with `n` made of digits, becomes `<li>x</li>` |
| Markdown.WrapWhole | blog/blog-loader.js:170 | a text that starts with `<li>` and ends with `</li>` is wrapped whole in `<ul>`…`</ul>` |
| Markdown.ItemLineShape | blog/blog-loader.js:168-169 | an item line becomes text that starts with `<li>` and ends with `</li>` |
| Markdown.ItemRunIsList | blog/blog-loader.js:168-170 | lines whose first and last are items become the items joined by newlines, inside one `<ul>`…`</ul>` |
| Markdown.Avoided | blog/blog-loader.js:158-165 | a pattern that can only start at `c` leaves a text without `c` unchanged |
| Markdown.FencedBlock | blog/blog-loader.js:158-165 | a fenced block with any `\w` tag becomes `<pre><code>body</code></pre>`, and the inline steps leave it alone |
| Markdown.FencedBlockExample | blog/blog-loader.js:158 | ```` ```js\nx\n``` ```` becomes `<pre><code>x\n</code></pre>` |
| Markdown.FenceKeepsBackquote | blog/blog-loader.js:158 | a single backquote inside a code block does not end it: only "```" does |
| Markdown.ItemInsideFence | blog/blog-loader.js:158-170 | an item line inside a fenced block, after its first line, becomes a `<ul><li>`…`</li></ul>` list inside the `pre`/`code` block, because the list stage runs after the fence stage |
| Markdown.FirstLineItemInFence | blog/blog-loader.js:158-170 | an item on the first line of a fenced block shares its line with `<pre><code>` and is left as it is |
| Markdown.StrongSpan | blog/blog-loader.js:164-165 | `**x**` becomes `<strong>x</strong>`, because bold runs before italic |
| Markdown.EmphasisSpan | blog/blog-loader.js:164-165 | `*x*` becomes `<em>x</em>` |
| Markdown.HeadingInsideFence | blog/blog-loader.js:153-158 | a `# x` line inside a fence comes out as `<h1>x</h1>` inside the `pre`/`code` block |
| Markdown.PlainLineUnchanged | blog/blog-loader.js:153-173 | a prose line is neither a heading, an item nor a quote |
| Markdown.PlainHeadings | blog/blog-loader.js:153-155 | paragraphs of prose pass the heading stage unchanged |
| Markdown.PlainInline | blog/blog-loader.js:158-170 | paragraphs of prose pass the inline stages and the list wrap unchanged |
| Markdown.PlainItems | blog/blog-loader.js:168-169 | paragraphs of prose pass the item stage unchanged |
| Markdown.PlainQuotes | blog/blog-loader.js:173 | paragraphs of prose pass the blockquote stage unchanged |
| Markdown.BreaksJoin | blog/blog-loader.js:176 | every blank line between paragraphs becomes `</p><p>` |
| Markdown.ParasJoin | blog/blog-loader.js:176-177 | wrapping the joined text in `<p>`…`</p>` puts each paragraph in its own `<p>`…`</p>` |
| Markdown.CleanupKinds | blog/blog-loader.js:180-188 | every cleanup pattern either removes an empty paragraph, drops a `<p>` before an opening tag, or drops a `</p>` after a closing tag |
| Markdown.CleanupStarts | blog/blog-loader.js:180-188 | every cleanup pattern can only begin at a `<` |
| Markdown.NoCleanupAtOpen | blog/blog-loader.js:180-188 | no cleanup pattern matches at a `<p>` followed by prose |
| Markdown.NoCleanupAtClose | blog/blog-loader.js:180-188 | no cleanup pattern matches at a `</p>` that closes prose |
| Markdown.NoCleanupAtHeading | blog/blog-loader.js:180-188 | no cleanup pattern matches at an opening heading tag `<h…` (the opening-heading pattern needs a `<p>` in front) |
| Markdown.NoCleanupAtHeadingEnd | blog/blog-loader.js:180-188 | no cleanup pattern matches at `</h1>` when no `</p>` follows it |
| Markdown.CleanOpen | blog/blog-loader.js:180-188 | each cleanup pattern steps over the opening of a prose paragraph |
| Markdown.CleanClose | blog/blog-loader.js:180-188 | each cleanup pattern steps over a `</p>` that closes prose |
| Markdown.CleanSkip | blog/blog-loader.js:180-188 | each cleanup pattern copies a `<` where it does not match and the text up to the next `<` |
| Markdown.CleanPara | blog/blog-loader.js:180-188 | each cleanup pattern leaves a prose paragraph unchanged |
| Markdown.CleanParas | blog/blog-loader.js:180-188 | each cleanup pattern leaves a run of prose paragraphs unchanged |
| Markdown.ReplaceEachFixed | blog/blog-loader.js:180-188 | a text that each pattern leaves alone is left alone by the whole chain |
| Markdown.PlainParagraphs | blog/blog-loader.js:149-191 | prose lines separated by blank lines become exactly those lines, each in `<p>`…`</p>` |
| Markdown.PlainStages | blog/blog-loader.js:149-191 | the same, stage by stage: the composed stages turn prose paragraphs into those paragraphs in `<p>`…`</p>` |
| Markdown.HelloExample | blog/blog-loader.js:176-177 | `Hello` becomes `<p>Hello</p>` |
| Markdown.TwoParagraphs | blog/blog-loader.js:176-177 | `a\n\nb` of prose becomes `<p>a</p><p>b</p>` |
| Markdown.TwoParagraphsExample | blog/blog-loader.js:176-177 | `a\n\nb` becomes `<p>a</p><p>b</p>` |
| Markdown.EmptyDocument | blog/blog-loader.js:176-180 | the empty document becomes the empty string: the one empty paragraph is removed again |
| Markdown.EmptyCleanup | blog/blog-loader.js:180 | the cleanup turns `<p></p>` into nothing |
| Markdown.CleanHeadingOpen | blog/blog-loader.js:181 | the `<p>` before `<h1>` is dropped |
| Markdown.CleanHeadingEnd | blog/blog-loader.js:182-188 | no cleanup pattern changes `</h1>`, a newline, a prose line and `</p>` |
| Markdown.CleanHeadingOther | blog/blog-loader.js:180-188 | every cleanup pattern except the opening-heading one leaves `<h1>t</h1>\nx</p>` unchanged |
| Markdown.CleanHeadingThenText | blog/blog-loader.js:180-188 | the cleanup turns `<p><h1>t</h1>\nx</p>` into `<h1>t</h1>\nx</p>`: the closing `</p>` stays without a partner |
| Markdown.HeadingThenTextHeadings | blog/blog-loader.js:153-155 | the heading stage turns `# t\nx` into `<h1>t</h1>\nx` |
| Markdown.HeadingThenText | blog/blog-loader.js:149-191 | `# t` followed by a prose line becomes `<h1>t</h1>\nx</p>` |
| Markdown.HeadingThenTextExample | blog/blog-loader.js:149-191 | `# T\nx` becomes `<h1>T</h1>\nx</p>` |
| Frontmatter.SplitFrontmatter | blog/blog-loader.js:103-106 | no match exactly when the text does not start with `---\n` or has no `\n---\n` at index 4 or later; a match splits the text into block and body around the first such `\n---\n` |
| Frontmatter.SplitAssembled | blog/blog-loader.js:103-117 | a block without a closing delimiter, put between the delimiters and followed by any body, splits back into that block and body |
| Frontmatter.KeyEnd | blog/blog-loader.js:135 | `^(\w+):` matches exactly when a non-empty run of `\w` is followed by `:` |
| Frontmatter.FieldOf | blog/blog-loader.js:135-138 | a recognised line never yields a value with a `"` |
| Frontmatter.FieldAfter | blog/blog-loader.js:135-138 | the entry keeps the key it was given, and its value has no `"` |
| Frontmatter.FieldOfKey | blog/blog-loader.js:135 | a recognised key is a non-empty run of `\w` at the start of the line, directly followed by `:` |
| Frontmatter.Unquote | blog/blog-loader.js:135-138 | a value with a `"` left inside after removing the optional quotes is refused |
| Frontmatter.UnquoteShape | blog/blog-loader.js:135-138 | a quote-free value between optional quotes is accepted and given back |
| Frontmatter.UnquoteSound | blog/blog-loader.js:135-138 | every accepted value is the text between an optional opening and an optional closing quote |
| Frontmatter.FieldOfShape | blog/blog-loader.js:135-138 | every line `key:` + spaces + optional quote + quote-free value + optional quote is recognised with that key and value |
| Frontmatter.FieldOfSound | blog/blog-loader.js:135-138 | every recognised line is its key, `:`, a run of `\s`, an optional quote, its value and an optional quote, where the value does not continue the run of `\s` |
| Frontmatter.FieldOfParts | blog/blog-loader.js:135 | a line `key:rest` is read by trimming the start of `rest` and removing its quotes |
| Frontmatter.TrimStartSpaces | blog/blog-loader.js:135 | `\s*` takes the whole run of spaces before the value |
| Frontmatter.Parsed | blog/blog-loader.js:134-135 | each line is matched on its own, in order |
| Frontmatter.StoreOther | blog/blog-loader.js:138 | storing a line that does not set `key` leaves `key` as it was |
| Frontmatter.CollectClean | blog/blog-loader.js:134-140 | storing entries whose values have no `"` gives an object without `__proto__` and without `"` in any value |
| Frontmatter.FieldsOf | blog/blog-loader.js:130-143 | the object never holds `__proto__`, and no value holds a `"` |
| Frontmatter.FieldsOfKeys | blog/blog-loader.js:130-143 | a key is present exactly when some line sets it and it is not `__proto__` |
| Frontmatter.FieldsOfLastWins | blog/blog-loader.js:134-140 | a repeated key keeps the value of the last line that sets it |
| Frontmatter.IgnoredLine | blog/blog-loader.js:135-136 | a line that does not match contributes nothing |
| Frontmatter.FrontmatterOf | blog/blog-loader.js:130-143 | the parsed block never holds `__proto__` or a value with `"`, and a blank block gives the empty object |
| Frontmatter.ParseFrontmatter | blog/blog-loader.js:130-143 | the loop over the trimmed, split block builds exactly `FrontmatterOf(text)` |
| Frontmatter.CollectStep | blog/blog-loader.js:134-140 | reading one more line stores its entry, if any, on top of the previous object |
| Frontmatter.SingleLine | blog/blog-loader.js:132 | a one-line block that needs no trimming is read as that line alone |
| Frontmatter.QuotedTitle | blog/blog-loader.js:130-143 | `title: "Hi"` yields exactly `{title: Hi}` |
| Blog.FallbackPosts | blog/blog-loader.js:39-57 | two posts, `event-driven` (2024.12.20) then `self-hosting` (2024.11.08) |
| Blog.PostUrl | blog/blog-loader.js:81 | the post id can be read back from the fetched URL, so different posts are fetched from different URLs |
| Blog.ParseMarkdown | blog/blog-loader.js:102-125 | every parsed post has an `id` and a `content` |
| Blog.Merged | blog/blog-loader.js:120-124 | `{id, ...fm, content}` has exactly the keys `id`, `content` and those of `fm`; `content` always comes from the body; a frontmatter `id` overrides the post id; other keys keep their frontmatter values |
| Blog.ParseWithoutFrontmatter | blog/blog-loader.js:103-114 | a document that fails the regex gets the default metadata and all of it as content |
| Blog.ParseWithFrontmatter | blog/blog-loader.js:117-124 | with frontmatter, the post has exactly `id`, `content` and the block's keys, with the body's HTML as content and no default metadata |
| Blog.NoDefaultTitle | blog/blog-loader.js:117-124 | a block whose lines never set `title` gives a post without a title |
| Blog.OneLineFront | blog/blog-loader.js:103 | a one-line block cannot hold the closing delimiter |
| Blog.MergedPost | blog/blog-loader.js:120-124 | merging a single key gives exactly `{id, key, content}` |
| Blog.TitledPost | blog/blog-loader.js:102-143 | `---\ntitle: "Hi"\n---\n` + body gives exactly `{id, title: Hi, content}` |
| Blog.BlogLoader.constructor | blog/blog-loader.js:6-10 | empty cache, empty list, not initialised |
| Blog.BlogLoader.Init | blog/blog-loader.js:15-34 | does nothing once initialised; otherwise fetches the index once, adopts an ok body, falls back on a failed or throwing fetch, and always ends initialised |
| Blog.BlogLoader.GetPosts | blog/blog-loader.js:63-66 | returns the post list after `init` |
| Blog.BlogLoader.GetPost | blog/blog-loader.js:71-97 | a cached post is returned without a fetch; otherwise one fetch, and only an ok response is parsed, cached under that id and returned; a failure returns `None` and leaves the cache as it was |
| Blog.CachedSecondRead | blog/blog-loader.js:74-77 | a second `getPost` of the same id returns the same post and fetches nothing more |
| Blog.RetryAfterFailure | blog/blog-loader.js:82-95 | a failed fetch is not cached: the next `getPost` fetches again, and the index is fetched only once |
| Art.Fallback | art/art-loader.js:34-39 | two sketches, `neon-orbits` then `matrix-flow`, each with script `/art/sketches/<id>.js` |
| Art.Cards | art/art-loader.js:74-79 | one card per manifest entry, in order, showing its title and sketch id |
| Art.Scripts | art/art-loader.js:43 | the script source of each manifest entry, in order |
| Art.SketchIds | art/art-loader.js:77 | the `data-sketch-id` of each card, in order |
| Art.AfterLoads | art/art-loader.js:41-58 | loading keeps the existing tags as a prefix and adds at most one tag per source |
| Art.AfterLoadsCovers | art/art-loader.js:41-58 | loading keeps the existing tags, gives every source a tag, and adds tags only for those sources |
| Art.AfterLoadsDistinct | art/art-loader.js:41-58 | loading never gives a source a second tag, even when the manifest repeats it |
| Art.AfterLoadsPresent | art/art-loader.js:50 | sources that already have a tag add nothing |
| Art.AfterLoadsIdempotent | art/art-loader.js:41-58 | loading the same sources a second time adds no tag |
| Art.RegistryAfter | art/art-loader.js:41-58 | loading keeps every registered id |
| Art.RegistryAfterQuiet | art/art-loader.js:41-58 | when every source already has a tag or fails to load, no script runs and the registry is unchanged |
| Art.RegistryAfterGains | art/art-loader.js:41-58 | every id registered by a script that gets a new tag and loads is registered afterwards |
| Art.RegistryAfterOnly | art/art-loader.js:41-58 | every entry afterwards was there before, or is the factory registered for that id by a script that got a new tag and loaded; a script that fails to load or already had a tag registers nothing |
| Art.LoadsFine | art/art-loader.js:43-56 | `Promise.all` resolves when no load fails and when every source already had a tag; it rejects when some source without a tag fails to load |
| Art.Drained | art/art-loader.js:61-66 | `remove` is called once on every instance, from last to first, and a failure is recorded exactly for the instances whose `remove` throws |
| Art.Spawned | art/art-loader.js:86-98 | no more instances than containers, and each for a registered sketch id |
| Art.SpawnedSound | art/art-loader.js:86-98 | every instance belongs to a container whose id is registered and was made by that id's factory; instances follow container order |
| Art.SpawnedComplete | art/art-loader.js:86-98 | every container with a registered id gets an instance, and containers without a factory get none |
| Art.Reached | art/art-loader.js:89-96 | `forEach` gets through exactly the containers before the first one whose registered factory, or the `new p5` built from it, throws |
| Art.ArtLoader.Containers | art/art-loader.js:88-90 | the canvases are the grid's cards' sketch ids, in order; a page without a grid has none |
| Art.ArtLoader.constructor | art/art-loader.js:6-11 | empty registry, no instances, not initialised, empty manifest |
| Art.ArtLoader.Register | art/art-loader.js:13-15 | the id now maps to the factory; every other id is unchanged |
| Art.ArtLoader.Init | art/art-loader.js:17-32 | does nothing once initialised; otherwise fetches the manifest once, adopts an ok body, falls back on a failed or throwing fetch, and always ends initialised |
| Art.ArtLoader.LoadScript | art/art-loader.js:47-59 | an existing tag for the source resolves at once and adds nothing; otherwise exactly one tag is appended, and it stays even if the load fails; a script that loads adds its own registrations to the registry, and one that fails adds none |
| Art.ArtLoader.LoadScripts | art/art-loader.js:41-45 | the tags become `AfterLoads` of the manifest's sources, one per distinct source; the result resolves exactly when every new tag loads |
| Art.ArtLoader.ClearInstances | art/art-loader.js:61-66 | ends with no instances, after one `remove` call per instance, last to first |
| Art.ArtLoader.InitializeArt | art/art-loader.js:86-98 | clears first, then has exactly the instances `Spawned` gives for the canvases up to the first throwing factory, and reports whether it got through all of them |
| Art.ArtLoader.RenderGrid | art/art-loader.js:68-84 | after `init`: without a grid nothing else happens; otherwise one card per manifest entry, then script loading, which registers the loaded sketches; the sketches are initialised, with that registry, only if every load resolves, and the render fails if a factory throws |
| Art.RenderTwice | art/art-loader.js:50-57 | a script that failed to load keeps its tag, so rendering again adds no tag and resolves; it registers nothing new, so the registry after the second render is the one after the first |
| Art.FirstRender | art/art-loader.js:68-98 | the first render of a grid page whose manifest fetch fails loads both fallback scripts, which register their sketches, and ends with one instance per card |
| Art.FallbackRegistry | art/art-loader.js:34-58 | loading the two fallback scripts registers `neon-orbits` and `matrix-flow` |
| Art.FallbackSpawn | art/art-loader.js:86-98 | with both fallback sketches registered, the two fallback canvases get one instance each, in order |

## Left out

- Network, JSON and text decoding: `fetch`, `response.ok`, `response.json()` and `response.text()` are not modelled. Each fetch is an input of type `Fetched`. A `json()` or `text()` call that throws is the `Throws` case, and an ok body is adopted verbatim.
- Promises, `async` scheduling, `Promise.all`: every method runs sequentially. All script tags are appended before any load settles, so the tags do not depend on the order in which loads settle.
- `console` logging, the global singletons and the `DOMContentLoaded` hook: these are presentation and start-up plumbing.
- The art sketches (`art/sketches/*.js`): they are p5 drawing callbacks with floating point and randomness. Only their factories appear, as opaque values.
- DOM and p5 specifics: `querySelector`, `createElement`, `getAttribute`, `new p5(...)` and the `innerHTML` template text are not modelled. The grid is a sequence of cards (title and sketch id), the head is a sequence of script sources, and an instance is an opaque value.
- HTML escaping: the card template interpolates titles without escaping. This is presentation and is not modelled.
- Art.ArtLoader.constructor: requires that no source has two script tags in the head it starts from. The page does not guarantee this. It holds when `loadScript` is the only code that creates `data-art-src` tags, since `loadScript` never adds a second tag for a source.
- Art.ArtLoader.Containers: assumes the only `.art-canvas` elements of the page are those of the grid's cards.
- Art.ArtLoader.InitializeArt: `if (factory)` skips a registered value that is falsy, such as `register(id, undefined)`. The registry here holds only factories, so that case is not modelled. The only callers of `register` in the repository, the two sketch files, pass a function.
- Art.ArtLoader.LoadScript: sources are compared as plain strings. In the page, the source is put into a CSS attribute selector. A source holding `"` makes the selector invalid, so the promise rejects and no tag is added. A `\` starts a CSS escape. Neither case is modelled. The fallback sources are `/art/sketches/<id>.js` and hold neither character.
- Art.ArtLoader.LoadScripts: the scripts are loaded, and run their `register` calls, in manifest order. In the page they run in whatever order their loads finish. The order matters only when two scripts register the same id.
- Art.ArtLoader.ClearInstances: does not model the `inst.remove &&` guard. An instance without a `remove` method is treated like one whose `remove` does nothing.
- Markdown.MarkdownToHtml: the reassignments of the local `html` variable are modelled as a composition of functions, one per stage. Its own contract covers one line of prose only. Other inputs are covered by lemmas about the stages (`PlainParagraphs`, `HeadingThenText`, `FencedBlock`, `StrongSpan`, `ItemInsideFence` and the others above), because the output for arbitrary markdown has no simpler description than the chain itself.
- Markdown.Headings, Markdown.CodeAndEmphasis, Markdown.Lists, Markdown.Blockquotes, Markdown.Paragraphs: each one's own contract only covers a text the stage cannot touch. What a stage does to the text it does touch is stated by the lemmas about it (`HeadingsByLine`, `FencedBlock`, `SpanHit`, `ItemsByLine`, `WrapList`, `BreaksJoin`).
- Markdown.Cleanup: its contract says only that a text without `<` is unchanged. That the cleanup deletes nothing but the nine patterns' tags is proved for prose paragraphs (`CleanParas`), for a heading followed by prose (`CleanHeadingThenText`) and for texts where a pattern matches nowhere (`RegexReplace.NoMatchUnchanged`). It is not proved as one statement over all texts, because matches of the nine patterns can overlap and adjoin: one pattern's output can create or destroy another's match, and a general statement would have to describe every such case.
- Characters are Unicode scalar values, not UTF-16 code units. Surrogate pairs are therefore not modelled. `\s`, `\w`, `\d` and the line terminators follow their JavaScript definitions, so no restriction to ASCII or to `\n` line ends is needed.
