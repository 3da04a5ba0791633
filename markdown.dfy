/** `BlogLoader.markdownToHtml` (blog/blog-loader.js:149-191): a fixed chain
    of regular-expression replacements over the whole text, in the source's
    order. Each stage below corresponds to one commented block of the source. */
module Markdown {
  import opened Wrappers
  import opened JsText
  import opened RegexReplace

  // ---------------------------------------------------------------------
  // The patterns, one constant per `replace` call.

  const H3: Rule := Line(Prefix("### "), "<h3>", "</h3>")
  const H2: Rule := Line(Prefix("## "), "<h2>", "</h2>")
  const H1: Rule := Line(Prefix("# "), "<h1>", "</h1>")
  const InlineCode: Rule := Span("`", "<code>", "</code>")
  const Bold: Rule := Span("**", "<strong>", "</strong>")
  const Italic: Rule := Span("*", "<em>", "</em>")
  const Bullet: Rule := Line(Prefix("- "), "<li>", "</li>")
  const Numbered: Rule := Line(Ordinal, "<li>", "</li>")
  const Quote: Rule := Line(Prefix("> "), "<blockquote>", "</blockquote>")
  const Break: Rule := Swap("\n\n", "</p><p>")
  const EmptyParagraph: Rule := Swap("<p></p>", "")
  const OpenHeading: Rule := Unwrap("<p>", Lit("<h") + [HeadingDigit] + Lit(">"), "")
  const CloseHeading: Rule := Unwrap("", Lit("</h") + [HeadingDigit] + Lit(">"), "</p>")
  const OpenPre: Rule := Unwrap("<p>", Lit("<pre>"), "")
  const ClosePre: Rule := Unwrap("", Lit("</pre>"), "</p>")
  const OpenList: Rule := Unwrap("<p>", Lit("<ul>"), "")
  const CloseList: Rule := Unwrap("", Lit("</ul>"), "</p>")
  const OpenQuote: Rule := Unwrap("<p>", Lit("<blockquote>"), "")
  const CloseQuote: Rule := Unwrap("", Lit("</blockquote>"), "</p>")

  const HeadingRules: seq<Rule> := [H3, H2, H1]
  const InlineRules: seq<Rule> := [Fence, InlineCode, Bold, Italic]
  const ItemRules: seq<Rule> := [Bullet, Numbered]
  const CleanupRules: seq<Rule> :=
    [EmptyParagraph, OpenHeading, CloseHeading, OpenPre, ClosePre,
     OpenList, CloseList, OpenQuote, CloseQuote]

  /** Apply the replacements `rules` one after the other. */
  function ReplaceEach(rules: seq<Rule>, s: string): string
  {
    if rules == [] then s else ReplaceEach(rules[1..], Replace(rules[0], s))
  }

  // ---------------------------------------------------------------------
  // The stages.

  /** `# `, `## ` and `### ` lines; they can only begin at a `#`. */
  function Headings(s: string): (r: string)
    ensures '#' !in s ==> r == s
  {
    ReplaceEachAvoided(HeadingRules, c => c == '#', s);
    ReplaceEach(HeadingRules, s)
  }

  /** Code blocks, inline code, bold and italic; they can only begin at a
      backquote or an asterisk. */
  function CodeAndEmphasis(s: string): (r: string)
    ensures '`' !in s && '*' !in s ==> r == s
  {
    ReplaceEachAvoided(InlineRules, c => c == '`' || c == '*', s);
    ReplaceEach(InlineRules, s)
  }

  /** `p` is the first occurrence of `pat` in `s`. */
  ghost predicate FirstAt(s: string, pat: string, p: nat)
  {
    OccursAt(s, pat, p) && forall k: nat :: k < p ==> !OccursAt(s, pat, k)
  }

  /** `q` is the last occurrence of `pat` in `s`. */
  ghost predicate LastAt(s: string, pat: string, q: nat)
  {
    OccursAt(s, pat, q) && forall k: nat :: q < k ==> !OccursAt(s, pat, k)
  }

  /** `/(<li>.*<\/li>)/s` replaced by `<ul>$1</ul>`, without the `g` flag:
      one `<ul>` pair at most, from the first `<li>` to the last `</li>`. */
  function WrapList(s: string): (r: string)
    ensures (forall k: nat :: !OccursAt(s, "<li>", k)) ==> r == s
    ensures (forall k: nat :: !OccursAt(s, "</li>", k)) ==> r == s
    ensures forall p: nat, q: nat :: FirstAt(s, "<li>", p) && LastAt(s, "</li>", q) ==>
              r == if p + 4 <= q then s[..p] + "<ul>" + s[p..q + 5] + "</ul>" + s[q + 5..] else s
  {
    match IndexOf(s, "<li>", 0)
    case None => s
    case Some(p) =>
      match LastIndexOf(s, "</li>")
      case Some(q) =>
        assert forall p': nat, q': nat :: FirstAt(s, "<li>", p') && LastAt(s, "</li>", q') ==> p' == p && q' == q;
        if p + 4 <= q then s[..p] + "<ul>" + s[p..q + 5] + "</ul>" + s[q + 5..] else s
      case None => s
  }

  /** `- ` and `1. ` items, then one `<ul>` around them: a text without
      dashes, digits and tags has neither. */
  function Lists(s: string): (r: string)
    ensures '-' !in s && '<' !in s && (forall c <- s :: !IsDigit(c)) ==> r == s
  {
    var items := ReplaceEach(ItemRules, s);
    ReplaceEachAvoided(ItemRules, c => c == '-' || IsDigit(c), s);
    if '<' !in s then
      AbsentChar(s, "<li>", 0);
      WrapList(items)
    else WrapList(items)
  }

  /** `> ` lines, which can only begin at a `>`. */
  function Blockquotes(s: string): (r: string)
    ensures '>' !in s ==> r == s
  {
    InertAt(Quote, s);
    Replace(Quote, s)
  }

  /** Blank lines become paragraph boundaries, and the whole text is wrapped
      in one outer paragraph; a text without line breaks is one paragraph. */
  function Paragraphs(s: string): (r: string)
    ensures '\n' !in s ==> r == "<p>" + s + "</p>"
  {
    InertAt(Break, s);
    "<p>" + Replace(Break, s) + "</p>"
  }

  /** Empty paragraphs go, and a paragraph tag that touches the opening or
      closing tag of a heading, code block, list or blockquote is dropped;
      every one of these patterns begins at a `<`. */
  function Cleanup(s: string): (r: string)
    ensures '<' !in s ==> r == s
  {
    CleanupStartsAll();
    ReplaceEachAvoided(CleanupRules, c => c == '<', s);
    ReplaceEach(CleanupRules, s)
  }

  /** One line of prose becomes one paragraph. */
  function MarkdownToHtml(markdown: string): (html: string)
    ensures PlainText(markdown) ==> html == "<p>" + markdown + "</p>"
  {
    PlainPipeline(markdown);
    Cleanup(Paragraphs(Blockquotes(Lists(CodeAndEmphasis(Headings(markdown))))))
  }

  /** Rules that can begin only at characters `at` accepts leave a text
      holding none of those characters alone. */
  lemma {:induction false} ReplaceEachAvoided(rules: seq<Rule>, at: char -> bool, s: string)
    requires forall r <- rules, d :: Starts(r, d) ==> at(d)
    ensures (forall c <- s :: !at(c)) ==> ReplaceEach(rules, s) == s
  {
    if rules != [] && forall c <- s :: !at(c) {
      assert rules[0] in rules;
      InertAt(rules[0], s);
      ReplaceEachAvoided(rules[1..], at, s);
    }
  }

  lemma HeadingsByRule(s: string)
    ensures Headings(s) == Replace(H1, Replace(H2, Replace(H3, s)))
  {
    assert HeadingRules[1..] == [H2, H1] && [H2, H1][1..] == [H1] && [H1][1..] == [];
    calc {
      Headings(s);
      ReplaceEach([H2, H1], Replace(H3, s));
      ReplaceEach([H1], Replace(H2, Replace(H3, s)));
      ReplaceEach([], Replace(H1, Replace(H2, Replace(H3, s))));
    }
  }

  lemma ItemsByRule(s: string)
    ensures ReplaceEach(ItemRules, s) == Replace(Numbered, Replace(Bullet, s))
  {
    assert ItemRules[1..] == [Numbered] && [Numbered][1..] == [];
    calc {
      ReplaceEach(ItemRules, s);
      ReplaceEach([Numbered], Replace(Bullet, s));
      ReplaceEach([], Replace(Numbered, Replace(Bullet, s)));
    }
  }

  // ---------------------------------------------------------------------
  // Line-level reference definitions and the theorems tying them to the scan.

  /** What the heading stage makes of one line: the longest marker wins,
      a space after the hashes is required, the rest of the line is kept. */
  function HeadingLine(line: string): string
  {
    if "### " <= line then "<h3>" + line[4..] + "</h3>"
    else if "## " <= line then "<h2>" + line[3..] + "</h2>"
    else if "# " <= line then "<h1>" + line[2..] + "</h1>"
    else line
  }

  /** What the list-item replacements make of one line. */
  function ItemLine(line: string): string
  {
    if "- " <= line then "<li>" + line[2..] + "</li>"
    else
      var d := DigitRun(line);
      if d > 0 && ". " <= line[d..] then "<li>" + line[d + 2..] + "</li>" else line
  }

  lemma RewriteKeepsLine(m: Marker, open: string, close: string, line: string)
    requires NoLineTerminator(open) && NoLineTerminator(close) && NoLineTerminator(line)
    ensures NoLineTerminator(RewriteLine(m, open, close, line))
  {
    match MarkerRest(m, line)
    case Some(rest) =>
      forall i | 0 <= i < |rest| ensures !IsLineTerminator(rest[i]) {
        assert rest[i] == line[|line| - |rest| + i];
      }
    case None =>
  }

  lemma HeadingRulesOnLine(line: string)
    requires NoLineTerminator(line)
    ensures RewriteLine(Prefix("# "), "<h1>", "</h1>",
              RewriteLine(Prefix("## "), "<h2>", "</h2>",
                RewriteLine(Prefix("### "), "<h3>", "</h3>", line)))
         == HeadingLine(line)
  {
    var r3 := RewriteLine(Prefix("### "), "<h3>", "</h3>", line);
    if "### " <= line {
      TagNotMarker("<h3>" + line[4..] + "</h3>");
    } else if "## " <= line {
      assert r3 == line;
      TagNotMarker("<h2>" + line[3..] + "</h2>");
    } else {
      assert r3 == line;
    }
  }

  /** Text that begins with a tag does not begin with a heading marker. */
  lemma TagNotMarker(u: string)
    requires u != [] && u[0] == '<'
    ensures !("# " <= u) && !("## " <= u)
  {
  }

  /** The heading stage rewrites a text line by line, each line as `HeadingLine` says. */
  lemma HeadingsStep(line: string, t: char, rest: string)
    requires NoLineTerminator(line) && IsLineTerminator(t)
    ensures Headings(line + [t] + rest) == HeadingLine(line) + [t] + Headings(rest)
  {
    var l3 := RewriteLine(Prefix("### "), "<h3>", "</h3>", line);
    var l2 := RewriteLine(Prefix("## "), "<h2>", "</h2>", l3);
    RewriteKeepsLine(Prefix("### "), "<h3>", "</h3>", line);
    RewriteKeepsLine(Prefix("## "), "<h2>", "</h2>", l3);
    calc {
      Headings(line + [t] + rest);
      { HeadingsByRule(line + [t] + rest); }
      Replace(H1, Replace(H2, Replace(H3, line + [t] + rest)));
      { LineStep(Prefix("### "), "<h3>", "</h3>", line, t, rest); }
      Replace(H1, Replace(H2, l3 + [t] + Replace(H3, rest)));
      { LineStep(Prefix("## "), "<h2>", "</h2>", l3, t, Replace(H3, rest)); }
      Replace(H1, l2 + [t] + Replace(H2, Replace(H3, rest)));
      { LineStep(Prefix("# "), "<h1>", "</h1>", l2, t, Replace(H2, Replace(H3, rest))); }
      RewriteLine(Prefix("# "), "<h1>", "</h1>", l2) + [t] + Replace(H1, Replace(H2, Replace(H3, rest)));
      { HeadingRulesOnLine(line); HeadingsByRule(rest); }
      HeadingLine(line) + [t] + Headings(rest);
    }
  }

  lemma HeadingsLast(line: string)
    requires NoLineTerminator(line)
    ensures Headings(line) == HeadingLine(line)
  {
    var l3 := RewriteLine(Prefix("### "), "<h3>", "</h3>", line);
    var l2 := RewriteLine(Prefix("## "), "<h2>", "</h2>", l3);
    RewriteKeepsLine(Prefix("### "), "<h3>", "</h3>", line);
    RewriteKeepsLine(Prefix("## "), "<h2>", "</h2>", l3);
    calc {
      Headings(line);
      { HeadingsByRule(line); }
      Replace(H1, Replace(H2, Replace(H3, line)));
      { LastLine(Prefix("### "), "<h3>", "</h3>", line); }
      Replace(H1, Replace(H2, l3));
      { LastLine(Prefix("## "), "<h2>", "</h2>", l3); }
      Replace(H1, l2);
      { LastLine(Prefix("# "), "<h1>", "</h1>", l2); }
      RewriteLine(Prefix("# "), "<h1>", "</h1>", l2);
      { HeadingRulesOnLine(line); }
      HeadingLine(line);
    }
  }

  lemma ItemRulesOnLine(line: string)
    requires NoLineTerminator(line)
    ensures RewriteLine(Ordinal, "<li>", "</li>", RewriteLine(Prefix("- "), "<li>", "</li>", line))
         == ItemLine(line)
  {
    if "- " <= line {
      assert DigitRun("<li>" + line[2..] + "</li>") == 0;
    }
  }

  /** The list-item replacements rewrite a text line by line, as `ItemLine` says. */
  lemma ItemsStep(line: string, t: char, rest: string)
    requires NoLineTerminator(line) && IsLineTerminator(t)
    ensures ReplaceEach(ItemRules, line + [t] + rest)
         == ItemLine(line) + [t] + ReplaceEach(ItemRules, rest)
  {
    var lb := RewriteLine(Prefix("- "), "<li>", "</li>", line);
    RewriteKeepsLine(Prefix("- "), "<li>", "</li>", line);
    calc {
      ReplaceEach(ItemRules, line + [t] + rest);
      { ItemsByRule(line + [t] + rest); }
      Replace(Numbered, Replace(Bullet, line + [t] + rest));
      { LineStep(Prefix("- "), "<li>", "</li>", line, t, rest); }
      Replace(Numbered, lb + [t] + Replace(Bullet, rest));
      { LineStep(Ordinal, "<li>", "</li>", lb, t, Replace(Bullet, rest)); }
      RewriteLine(Ordinal, "<li>", "</li>", lb) + [t] + Replace(Numbered, Replace(Bullet, rest));
      { ItemRulesOnLine(line); ItemsByRule(rest); }
      ItemLine(line) + [t] + ReplaceEach(ItemRules, rest);
    }
  }

  lemma ItemsLast(line: string)
    requires NoLineTerminator(line)
    ensures ReplaceEach(ItemRules, line) == ItemLine(line)
  {
    var lb := RewriteLine(Prefix("- "), "<li>", "</li>", line);
    RewriteKeepsLine(Prefix("- "), "<li>", "</li>", line);
    calc {
      ReplaceEach(ItemRules, line);
      { ItemsByRule(line); }
      Replace(Numbered, Replace(Bullet, line));
      { LastLine(Prefix("- "), "<li>", "</li>", line); }
      Replace(Numbered, lb);
      { LastLine(Ordinal, "<li>", "</li>", lb); }
      RewriteLine(Ordinal, "<li>", "</li>", lb);
      { ItemRulesOnLine(line); }
      ItemLine(line);
    }
  }

  lemma InlineByRule(s: string)
    ensures CodeAndEmphasis(s) == Replace(Italic, Replace(Bold, Replace(InlineCode, Replace(Fence, s))))
  {
    assert InlineRules[1..] == [InlineCode, Bold, Italic] && [InlineCode, Bold, Italic][1..] == [Bold, Italic];
    assert [Bold, Italic][1..] == [Italic] && [Italic][1..] == [];
    calc {
      CodeAndEmphasis(s);
      ReplaceEach([InlineCode, Bold, Italic], Replace(Fence, s));
      ReplaceEach([Bold, Italic], Replace(InlineCode, Replace(Fence, s)));
      ReplaceEach([Italic], Replace(Bold, Replace(InlineCode, Replace(Fence, s))));
      ReplaceEach([], Replace(Italic, Replace(Bold, Replace(InlineCode, Replace(Fence, s)))));
    }
  }

  /** A rule that can only start at `c` leaves a text without `c` alone. */
  lemma Avoided(r: Rule, c: char, s: string)
    requires forall d :: Starts(r, d) ==> d == c
    requires c !in s
    ensures Replace(r, s) == s
  {
    InertAt(r, s);
  }

  /** A fenced block, with or without a language tag, becomes a `pre`/`code`
      block holding the body verbatim; the inline-code step that follows does
      not see the fence characters any more. */
  lemma FencedBlock(lang: string, body: string)
    requires forall i :: 0 <= i < |lang| ==> IsWordChar(lang[i])
    requires '`' !in body && '*' !in body
    ensures CodeAndEmphasis("```" + lang + "\n" + body + "```")
         == "<pre><code>" + body + "</code></pre>"
  {
    var src := "```" + lang + "\n" + body + "```";
    var out := "<pre><code>" + body + "</code></pre>";
    NoBackquoteClosed(body);
    FenceAlone(lang, body);
    PreCodeAvoids(body, '`');
    PreCodeAvoids(body, '*');
    calc {
      CodeAndEmphasis(src);
      { InlineByRule(src); }
      Replace(Italic, Replace(Bold, Replace(InlineCode, out)));
      { Avoided(InlineCode, '`', out); }
      Replace(Italic, Replace(Bold, out));
      { Avoided(Bold, '*', out); }
      Replace(Italic, out);
      { Avoided(Italic, '*', out); }
      out;
    }
  }

  lemma FenceAlone(lang: string, body: string)
    requires forall i :: 0 <= i < |lang| ==> IsWordChar(lang[i])
    requires ClosedAtEnd(body)
    ensures Replace(Fence, "```" + lang + "\n" + body + "```") == "<pre><code>" + body + "</code></pre>"
  {
    FenceHit(lang, body, []);
    assert "```" + lang + "\n" + body + "```" + [] == "```" + lang + "\n" + body + "```";
    assert "<pre><code>" + body + "</code></pre>" + [] == "<pre><code>" + body + "</code></pre>";
  }

  /** The `pre`/`code` wrapping adds no backquote and no star. */
  lemma PreCodeAvoids(body: string, c: char)
    requires (c == '`' || c == '*') && c !in body
    ensures c !in "<pre><code>" + body + "</code></pre>"
  {
    assert c !in "<pre><code>" && c !in "</code></pre>";
  }

  /** The fence example: the language tag goes, the body stays with its newline. */
  lemma FencedBlockExample()
    ensures CodeAndEmphasis("```js\nx\n```") == "<pre><code>x\n</code></pre>"
  {
    FencedBlockExampleText();
    FencedBlock("js", "x\n");
  }

  lemma FencedBlockExampleText()
    ensures forall i :: 0 <= i < |"js"| ==> IsWordChar("js"[i])
    ensures "```" + "js" + "\n" + "x\n" + "```" == "```js\nx\n```"
    ensures "<pre><code>" + "x\n" + "</code></pre>" == "<pre><code>x\n</code></pre>"
  {
  }

  /** A backquote inside a code block does not end it: only "```" does
      (for instance "```\na`b\n```" becomes `<pre><code>a`b\n</code></pre>`). */
  lemma FenceKeepsBackquote(x: string, y: string)
    requires '`' !in x && '`' !in y && y != []
    ensures Replace(Fence, "```\n" + x + "`" + y + "```") == "<pre><code>" + x + "`" + y + "</code></pre>"
  {
    var body := x + "`" + y;
    LoneBackquoteClosed(x, y);
    FenceAlone("", body);
    FenceLiterals();
    Flatten(x, "`", y, "```\n", "```");
    Flatten(x, "`", y, "<pre><code>", "</code></pre>");
  }

  /** A single backquote between backquote-free texts starts no fence. */
  lemma LoneBackquoteClosed(x: string, y: string)
    requires '`' !in x && '`' !in y && y != []
    ensures ClosedAtEnd(x + "`" + y)
  {
    var body := x + "`" + y;
    var w := body + "```";
    forall i: nat | i < |body| ensures !OccursAt(w, "```", i) {
      if i < |x| {
        assert w[i] == x[i] && x[i] in x;
      } else if i == |x| {
        assert w[i + 1] == y[0] && y[0] in y;
      } else {
        assert w[i] == y[i - |x| - 1] && y[i - |x| - 1] in y;
      }
      assert w[i..i + 3][0] == w[i] && w[i..i + 3][1] == w[i + 1];
    }
  }

  lemma Flatten(x: string, b: string, y: string, f: string, e: string)
    ensures f + (x + b + y) + e == f + x + b + y + e
  {
  }

  /** `**x**` becomes `<strong>x</strong>`: bold runs before italic. */
  lemma StrongSpan(x: string)
    requires x != [] && '*' !in x && '`' !in x
    ensures CodeAndEmphasis("**" + x + "**") == "<strong>" + x + "</strong>"
  {
    var s := "**" + x + "**";
    var out := "<strong>" + x + "</strong>";
    Avoided(Fence, '`', s);
    Avoided(InlineCode, '`', s);
    SpanHit("**", "<strong>", "</strong>", x, []);
    assert s + [] == s && out + [] == out;
    Avoided(Italic, '*', out);
    InlineByRule(s);
  }

  /** `*x*` becomes `<em>x</em>`; the bold pattern finds no `**` in it. */
  lemma EmphasisSpan(x: string)
    requires x != [] && '*' !in x && '`' !in x
    ensures CodeAndEmphasis("*" + x + "*") == "<em>" + x + "</em>"
  {
    var s := "*" + x + "*";
    Avoided(Fence, '`', s);
    Avoided(InlineCode, '`', s);
    assert Replace(Bold, s) == s by {
      assert MatchAt(Bold, s, true).None? by { assert s[1] == x[0]; }
      assert s[1..] == x + "*";
      CopyPrefix(Bold, x, "*", false);
      var ls := After(x, false);
      assert MatchAt(Bold, "*", ls).None?;
      assert ReplaceAll(Bold, "*", ls) == "*";
    }
    SpanHit("*", "<em>", "</em>", x, []);
    assert s + [] == s && "<em>" + x + "</em>" + [] == "<em>" + x + "</em>";
    InlineByRule(s);
  }

  /** A numbered line `n. x` is a list item. */
  lemma OrdinalItem(n: string, x: string)
    requires n != [] && forall i :: 0 <= i < |n| ==> IsDigit(n[i])
    ensures ItemLine(n + ". " + x) == "<li>" + x + "</li>"
  {
    var line := n + ". " + x;
    assert line == n + (". " + x);
    DigitRunOf(n, ". " + x);
    assert line[|n|..] == ". " + x;
    assert line[|n| + 2..] == x;
  }

  /** A text that begins with `<li>` and ends with `</li>` is wrapped whole. */
  lemma WrapWhole(s: string)
    requires "<li>" <= s && |s| >= 9 && s[|s| - 5..] == "</li>"
    ensures WrapList(s) == "<ul>" + s + "</ul>"
  {
    var q := |s| - 5;
    assert FirstAt(s, "<li>", 0) by { assert s[0..4] == "<li>"; }
    assert LastAt(s, "</li>", q);
    assert s[..0] == [] && s[0..q + 5] == s && s[q + 5..] == [];
  }

  function HeadingLines(lines: seq<string>): (r: seq<string>)
    ensures |r| == |lines|
  {
    if lines == [] then [] else [HeadingLine(lines[0])] + HeadingLines(lines[1..])
  }

  function ItemLines(lines: seq<string>): (r: seq<string>)
    ensures |r| == |lines|
  {
    if lines == [] then [] else [ItemLine(lines[0])] + ItemLines(lines[1..])
  }

  /** The heading stage works line by line: every line of a text is rewritten
      as `HeadingLine` says, and the newlines between them stay. */
  lemma {:induction false} HeadingsByLine(lines: seq<string>)
    requires forall l <- lines :: NoLineTerminator(l)
    ensures Headings(Join(lines, "\n")) == Join(HeadingLines(lines), "\n")
  {
    if lines == [] {
      HeadingsByRule([]);
    } else if |lines| == 1 {
      HeadingsLast(lines[0]);
    } else {
      var rest := Join(lines[1..], "\n");
      assert Join(lines, "\n") == lines[0] + ['\n'] + rest;
      HeadingsStep(lines[0], '\n', rest);
      HeadingsByLine(lines[1..]);
    }
  }

  /** The list-item replacements work line by line, as `ItemLine` says. */
  lemma {:induction false} ItemsByLine(lines: seq<string>)
    requires forall l <- lines :: NoLineTerminator(l)
    ensures ReplaceEach(ItemRules, Join(lines, "\n")) == Join(ItemLines(lines), "\n")
  {
    if lines == [] {
      ItemsByRule([]);
    } else if |lines| == 1 {
      ItemsLast(lines[0]);
    } else {
      var rest := Join(lines[1..], "\n");
      assert Join(lines, "\n") == lines[0] + ['\n'] + rest;
      ItemsStep(lines[0], '\n', rest);
      ItemsByLine(lines[1..]);
    }
  }

  /** A line that the list-item replacements turn into an `<li>`. */
  predicate IsItem(line: string)
  {
    "- " <= line || (DigitRun(line) > 0 && ". " <= line[DigitRun(line)..])
  }

  lemma ItemLineShape(line: string)
    requires IsItem(line)
    ensures "<li>" <= ItemLine(line) && |ItemLine(line)| >= 9
    ensures ItemLine(line)[|ItemLine(line)| - 5..] == "</li>"
  {
  }

  /** A run of item lines that begins and ends with an item becomes one list:
      `<ul>` before the first item, `</ul>` after the last. */
  lemma ItemRunIsList(lines: seq<string>)
    requires lines != [] && forall l <- lines :: NoLineTerminator(l)
    requires IsItem(lines[0]) && IsItem(lines[|lines| - 1])
    ensures Lists(Join(lines, "\n")) == "<ul>" + Join(ItemLines(lines), "\n") + "</ul>"
  {
    ItemsByLine(lines);
    ItemRunEnds(lines);
    WrapWhole(Join(ItemLines(lines), "\n"));
  }

  /** The rewritten run begins with `<li>` and ends with `</li>`. */
  lemma ItemRunEnds(lines: seq<string>)
    requires lines != [] && IsItem(lines[0]) && IsItem(lines[|lines| - 1])
    ensures var j := Join(ItemLines(lines), "\n");
            "<li>" <= j && |j| >= 9 && j[|j| - 5..] == "</li>"
  {
    var items := ItemLines(lines);
    var j := Join(items, "\n");
    ItemLinesAt(lines, 0);
    ItemLinesAt(lines, |lines| - 1);
    ItemLineShape(lines[0]);
    ItemLineShape(lines[|lines| - 1]);
    JoinEnds(items, "\n");
    var last := items[|items| - 1];
    assert j[|j| - 5..] == last[|last| - 5..] by {
      assert j[|j| - |last|..] == last;
    }
  }

  lemma {:induction false} ItemLinesAt(lines: seq<string>, i: nat)
    requires i < |lines|
    ensures ItemLines(lines)[i] == ItemLine(lines[i])
  {
    if i > 0 {
      ItemLinesAt(lines[1..], i - 1);
    }
  }
  // ---------------------------------------------------------------------
  // Paragraphs and cleanup.

  /** One line of ordinary prose: no markup character, and not beginning
      like a heading, a list item or a quote. */
  predicate PlainText(p: string)
  {
    && p != [] && !IsDigit(p[0]) && p[0] != '#' && p[0] != '-' && p[0] != '>'
    && NoLineTerminator(p) && '`' !in p && '*' !in p && '<' !in p
  }

  /** Each text in its own paragraph. */
  function Paras(ps: seq<string>): string
  {
    if ps == [] then [] else "<p>" + ps[0] + "</p>" + Paras(ps[1..])
  }

  lemma {:induction false} ReplaceEachFixed(rules: seq<Rule>, s: string)
    requires forall r <- rules :: Replace(r, s) == s
    ensures ReplaceEach(rules, s) == s
  {
    if rules != [] {
      ReplaceEachFixed(rules[1..], s);
    }
  }

  lemma PlainLineUnchanged(p: string)
    requires PlainText(p)
    ensures HeadingLine(p) == p && ItemLine(p) == p
    ensures RewriteLine(Prefix("> "), "<blockquote>", "</blockquote>", p) == p
  {
  }

  lemma {:induction false} PlainHeadings(ps: seq<string>)
    requires ps != [] && forall p <- ps :: PlainText(p)
    ensures Headings(Join(ps, "\n\n")) == Join(ps, "\n\n")
  {
    PlainLineUnchanged(ps[0]);
    if |ps| == 1 {
      HeadingsLast(ps[0]);
    } else {
      var rest := Join(ps[1..], "\n\n");
      assert Join(ps, "\n\n") == ps[0] + ['\n'] + ([] + ['\n'] + rest);
      HeadingsStep(ps[0], '\n', [] + ['\n'] + rest);
      HeadingsStep([], '\n', rest);
      PlainHeadings(ps[1..]);
    }
  }

  lemma {:induction false} PlainItems(ps: seq<string>)
    requires ps != [] && forall p <- ps :: PlainText(p)
    ensures ReplaceEach(ItemRules, Join(ps, "\n\n")) == Join(ps, "\n\n")
  {
    PlainLineUnchanged(ps[0]);
    if |ps| == 1 {
      ItemsLast(ps[0]);
    } else {
      var rest := Join(ps[1..], "\n\n");
      assert Join(ps, "\n\n") == ps[0] + ['\n'] + ([] + ['\n'] + rest);
      ItemsStep(ps[0], '\n', [] + ['\n'] + rest);
      ItemsStep([], '\n', rest);
      PlainItems(ps[1..]);
    }
  }

  lemma {:induction false} PlainQuotes(ps: seq<string>)
    requires ps != [] && forall p <- ps :: PlainText(p)
    ensures Blockquotes(Join(ps, "\n\n")) == Join(ps, "\n\n")
  {
    PlainLineUnchanged(ps[0]);
    if |ps| == 1 {
      LastLine(Prefix("> "), "<blockquote>", "</blockquote>", ps[0]);
    } else {
      var rest := Join(ps[1..], "\n\n");
      assert Join(ps, "\n\n") == ps[0] + ['\n'] + ([] + ['\n'] + rest);
      LineStep(Prefix("> "), "<blockquote>", "</blockquote>", ps[0], '\n', [] + ['\n'] + rest);
      LineStep(Prefix("> "), "<blockquote>", "</blockquote>", [], '\n', rest);
      PlainQuotes(ps[1..]);
    }
  }

  lemma PlainInline(ps: seq<string>)
    requires forall p <- ps :: PlainText(p)
    ensures CodeAndEmphasis(Join(ps, "\n\n")) == Join(ps, "\n\n")
    ensures WrapList(Join(ps, "\n\n")) == Join(ps, "\n\n")
  {
    var j := Join(ps, "\n\n");
    JoinAvoids(ps, "\n\n", '`');
    JoinAvoids(ps, "\n\n", '*');
    JoinAvoids(ps, "\n\n", '<');
    Avoided(Fence, '`', j);
    Avoided(InlineCode, '`', j);
    Avoided(Bold, '*', j);
    Avoided(Italic, '*', j);
    InlineByRule(j);
    AbsentChar(j, "<li>", 0);
  }

  /** Every blank line becomes a paragraph boundary. */
  lemma {:induction false} BreaksJoin(ps: seq<string>)
    requires ps != [] && forall p <- ps :: '\n' !in p
    ensures Replace(Break, Join(ps, "\n\n")) == Join(ps, "</p><p>")
  {
    if |ps| == 1 {
      Avoided(Break, '\n', ps[0]);
    } else {
      var rest := Join(ps[1..], "\n\n");
      JoinFirst(ps, "\n\n");
      JoinFirst(ps, "</p><p>");
      NoBreakStart(ps[0]);
      CopyPrefix(Break, ps[0], "\n\n" + rest, true);
      BreakAt(rest, After(ps[0], true));
      BreaksJoin(ps[1..]);
    }
  }

  lemma JoinFirst(ps: seq<string>, sep: string)
    requires |ps| > 1
    ensures Join(ps, sep) == ps[0] + (sep + Join(ps[1..], sep))
  {
  }

  lemma NoBreakStart(p: string)
    requires '\n' !in p
    ensures forall i :: 0 <= i < |p| ==> !Starts(Break, p[i])
  {
    forall i | 0 <= i < |p| ensures p[i] != '\n' {
      assert p[i] in p;
    }
  }

  /** A blank line is replaced by a paragraph boundary. */
  lemma BreakAt(rest: string, ls: bool)
    ensures ReplaceAll(Break, "\n\n" + rest, ls) == "</p><p>" + Replace(Break, rest)
  {
    var s := "\n\n" + rest;
    assert MatchAt(Break, s, ls) == Some(Hit(2, "</p><p>"));
    ReplaceHit(Break, s, ls, Hit(2, "</p><p>"));
    assert s[2..] == rest;
  }

  lemma {:induction false} ParasJoin(ps: seq<string>)
    requires ps != []
    ensures "<p>" + Join(ps, "</p><p>") + "</p>" == Paras(ps)
  {
    if |ps| == 1 {
      assert Paras(ps[1..]) == [];
    } else {
      ParasJoin(ps[1..]);
      var rest := Join(ps[1..], "</p><p>");
      calc {
        "<p>" + Join(ps, "</p><p>") + "</p>";
        "<p>" + (ps[0] + "</p><p>" + rest) + "</p>";
        "<p>" + ps[0] + "</p>" + ("<p>" + rest + "</p>");
        "<p>" + ps[0] + "</p>" + Paras(ps[1..]);
      }
    }
  }

  lemma Assoc(a: string, b: string, c: string)
    ensures a + (b + c) == (a + b) + c
  {
  }

  /** The unwrapping rules that drop a `<p>` in front of an opening tag. */
  predicate DropsOpening(r: Rule)
  {
    r.Unwrap? && r.lead == "<p>" && |r.tag| >= 2 && r.tag[0] == Ch('<') && r.tag[1] != Ch('/')
  }

  /** The unwrapping rules that drop a `</p>` after a closing tag; the tag
      names are `h` + level, `pre`, `ul` and `blockquote`. */
  predicate DropsClosing(r: Rule)
  {
    && r.Unwrap? && r.lead == [] && r.trail == "</p>" && |r.tag| >= 5
    && r.tag[0] == Ch('<') && r.tag[1] == Ch('/') && r.tag[2] != Ch('/')
    && (r.tag[2] == Ch('p') ==> r.tag[3] == Ch('r'))
    && (r.tag[2] == Ch('h') ==> |r.tag| == 5)
  }

  /** Every cleanup pattern is the empty-paragraph one or drops a paragraph
      tag next to an opening or a closing tag. */
  lemma CleanupKinds(r: Rule)
    requires r in CleanupRules
    ensures r == EmptyParagraph || DropsOpening(r) || DropsClosing(r)
  {
    OpeningRules();
    ClosingRules();
  }

  lemma OpeningRules()
    ensures DropsOpening(OpenHeading) && DropsOpening(OpenPre)
    ensures DropsOpening(OpenList) && DropsOpening(OpenQuote)
  {
  }

  lemma ClosingRules()
    ensures DropsClosing(CloseHeading) && DropsClosing(ClosePre)
    ensures DropsClosing(CloseList) && DropsClosing(CloseQuote)
  {
  }

  /** Every cleanup pattern can only begin at a `<`. */
  lemma CleanupStarts(r: Rule, c: char)
    requires r in CleanupRules && Starts(r, c)
    ensures c == '<'
  {
    CleanupKinds(r);
  }

  lemma CleanupStartsAll()
    ensures forall r <- CleanupRules, c :: Starts(r, c) ==> c == '<'
  {
    forall r <- CleanupRules, c | Starts(r, c) ensures c == '<' {
      CleanupStarts(r, c);
    }
  }

  /** No cleanup pattern matches where a paragraph opens on text. */
  lemma NoCleanupAtOpen(r: Rule, s: string, ls: bool)
    requires r in CleanupRules && "<p>" <= s && |s| > 3 && s[3] != '<'
    ensures MatchAt(r, s, ls).None?
  {
    CleanupKinds(r);
    if r == EmptyParagraph {
      assert s[3] != "<p></p>"[3];
    } else if DropsOpening(r) {
      UnwrapMissTag(r.lead, r.tag, r.trail, s, ls, 0);
    } else {
      UnwrapMissTag(r.lead, r.tag, r.trail, s, ls, 1);
    }
  }

  /** No cleanup pattern matches where a paragraph closes after text. */
  lemma NoCleanupAtClose(r: Rule, s: string, ls: bool)
    requires r in CleanupRules && "</p>" <= s
    ensures MatchAt(r, s, ls).None?
  {
    CleanupKinds(r);
    if r == EmptyParagraph {
      assert s[1] != "<p></p>"[1];
    } else if DropsOpening(r) {
      UnwrapMissLead(r.lead, r.tag, r.trail, s, ls, 1);
    } else if r.tag[2] == Ch('p') {
      UnwrapMissTag(r.lead, r.tag, r.trail, s, ls, 3);
    } else {
      UnwrapMissTag(r.lead, r.tag, r.trail, s, ls, 2);
    }
  }

  lemma CleanupStartsLt(r: Rule, a: string)
    requires r in CleanupRules && '<' !in a
    ensures forall i :: 0 <= i < |a| ==> !Starts(r, a[i])
  {
    forall i | 0 <= i < |a| ensures !Starts(r, a[i]) {
      assert a[i] in a;
      if Starts(r, a[i]) { CleanupStarts(r, a[i]); }
    }
  }

  /** A cleanup pattern steps over the opening of a paragraph of plain text. */
  lemma CleanOpen(r: Rule, p: string, t: string)
    requires r in CleanupRules && PlainText(p)
    ensures Replace(r, "<p>" + p + t) == "<p>" + p + ReplaceAll(r, t, false)
  {
    var s := "<p>" + p + t;
    var a := "p>" + p;
    OpenParts(p, t);
    NoCleanupAtOpen(r, s, true);
    ReplaceMiss(r, s, true);
    CleanupStartsLt(r, a);
    CopyPrefix(r, a, t, false);
    OpenRejoin(p, ReplaceAll(r, t, false));
  }

  lemma OpenParts(p: string, t: string)
    requires PlainText(p)
    ensures var s := "<p>" + p + t;
            && "<p>" <= s && |s| > 3 && s[3] != '<' && s[0] == '<'
            && s[1..] == "p>" + p + t && '<' !in "p>" + p && !After("p>" + p, false)
  {
    var s := "<p>" + p + t;
    var a := "p>" + p;
    assert s[3] == p[0] && p[0] in p;
    assert a[|a| - 1] == p[|p| - 1];
  }

  lemma OpenRejoin(p: string, x: string)
    ensures ['<'] + ("p>" + p + x) == "<p>" + p + x
  {
  }

  /** A cleanup pattern steps over the closing tag of a paragraph. */
  lemma CleanClose(r: Rule, rest: string, ls: bool)
    requires r in CleanupRules
    ensures ReplaceAll(r, "</p>" + rest, ls) == "</p>" + Replace(r, rest)
  {
    var s := "</p>" + rest;
    CloseParts(rest);
    NoCleanupAtClose(r, s, ls);
    ReplaceMiss(r, s, ls);
    CleanupStartsLt(r, "/p>");
    CopyPrefix(r, "/p>", rest, false);
    CleanupKinds(r);
    LineStartIrrelevant(r, rest);
    CloseRejoin(Replace(r, rest));
  }

  lemma CloseParts(rest: string)
    ensures var s := "</p>" + rest;
            && "</p>" <= s && s[0] == '<' && s[1..] == "/p>" + rest
            && '<' !in "/p>" && !After("/p>", false)
  {
  }

  lemma CloseRejoin(x: string)
    ensures ['<'] + ("/p>" + x) == "</p>" + x
  {
  }

  /** A cleanup pattern steps over one paragraph of plain text. */
  lemma CleanPara(r: Rule, p: string, rest: string)
    requires r in CleanupRules && PlainText(p)
    ensures Replace(r, "<p>" + p + "</p>" + rest) == "<p>" + p + "</p>" + Replace(r, rest)
  {
    assert "<p>" + p + "</p>" + rest == "<p>" + p + ("</p>" + rest);
    CleanOpen(r, p, "</p>" + rest);
    CleanClose(r, rest, false);
  }

  /** Plain paragraphs pass through every cleanup pattern untouched. */
  lemma {:induction false} CleanParas(r: Rule, ps: seq<string>)
    requires r in CleanupRules && forall p <- ps :: PlainText(p)
    ensures Replace(r, Paras(ps)) == Paras(ps)
  {
    if ps != [] {
      assert ps[0] in ps;
      CleanPara(r, ps[0], Paras(ps[1..]));
      CleanParas(r, ps[1..]);
    }
  }

  /** A text of ordinary one-line paragraphs separated by blank lines
      becomes exactly those paragraphs, each in `<p>`…`</p>`. */
  lemma PlainParagraphs(ps: seq<string>)
    requires ps != [] && forall p <- ps :: PlainText(p)
    ensures MarkdownToHtml(Join(ps, "\n\n")) == Paras(ps)
  {
    PlainStages(ps);
  }

  /** `PlainParagraphs`, stage by stage. */
  lemma PlainStages(ps: seq<string>)
    requires ps != [] && forall p <- ps :: PlainText(p)
    ensures var j := Join(ps, "\n\n");
            Cleanup(Paragraphs(Blockquotes(Lists(CodeAndEmphasis(Headings(j)))))) == Paras(ps)
  {
    var j := Join(ps, "\n\n");
    PlainHeadings(ps);
    PlainInline(ps);
    PlainItems(ps);
    PlainQuotes(ps);
    assert forall p <- ps :: '\n' !in p by {
      forall p <- ps ensures '\n' !in p {
        assert PlainText(p);
        forall i | 0 <= i < |p| ensures p[i] != '\n' { assert !IsLineTerminator(p[i]); }
      }
    }
    BreaksJoin(ps);
    ParasJoin(ps);
    assert Paragraphs(Blockquotes(Lists(CodeAndEmphasis(Headings(j))))) == Paras(ps);
    forall r <- CleanupRules ensures Replace(r, Paras(ps)) == Paras(ps) {
      CleanParas(r, ps);
    }
    ReplaceEachFixed(CleanupRules, Paras(ps));
  }

  /** The single-paragraph case of `PlainStages`. */
  lemma PlainPipeline(p: string)
    ensures PlainText(p) ==>
              Cleanup(Paragraphs(Blockquotes(Lists(CodeAndEmphasis(Headings(p)))))) == "<p>" + p + "</p>"
  {
    if PlainText(p) {
      assert Join([p], "\n\n") == p;
      PlainStages([p]);
      assert Paras([p]) == "<p>" + p + "</p>" + Paras([]);
    }
  }

  /** Two lines of prose separated by a blank line are two paragraphs. */
  lemma TwoParagraphs(a: string, b: string)
    requires PlainText(a) && PlainText(b)
    ensures MarkdownToHtml(a + "\n\n" + b) == "<p>" + a + "</p><p>" + b + "</p>"
  {
    TwoJoined(a, b);
    PlainParagraphs([a, b]);
    TwoParas(a, b);
  }

  lemma TwoJoined(a: string, b: string)
    ensures Join([a, b], "\n\n") == a + "\n\n" + b
  {
    assert [a, b][1..] == [b];
  }

  lemma TwoParas(a: string, b: string)
    ensures Paras([a, b]) == "<p>" + a + "</p><p>" + b + "</p>"
  {
    assert [a, b][1..] == [b] && [b][1..] == [];
    assert Paras([b]) == "<p>" + b + "</p>" + [];
    assert Paras([a, b]) == "<p>" + a + "</p>" + ("<p>" + b + "</p>");
  }

  lemma {:induction false} ReplaceEachEmpty(rules: seq<Rule>)
    ensures ReplaceEach(rules, "") == ""
  {
    if rules != [] {
      ReplaceEachEmpty(rules[1..]);
    }
  }

  /** An empty document gives an empty page: the one empty paragraph that
      the wrapping step creates is removed again by the cleanup. */
  lemma EmptyDocument()
    ensures MarkdownToHtml("") == ""
  {
    EmptyBeforeCleanup();
    EmptyCleanup();
  }

  /** The stages before the cleanup make an empty paragraph of nothing. */
  lemma EmptyBeforeCleanup()
    ensures Paragraphs(Blockquotes(Lists(CodeAndEmphasis(Headings(""))))) == "<p></p>"
  {
    ReplaceEachEmpty(HeadingRules);
    ReplaceEachEmpty(InlineRules);
    ReplaceEachEmpty(ItemRules);
    assert Lists(CodeAndEmphasis(Headings(""))) == "";
  }

  lemma EmptyCleanup()
    ensures Cleanup("<p></p>") == ""
  {
    var s := "<p></p>";
    assert Replace(EmptyParagraph, s) == "" by {
      assert s[7..] == "";
    }
    ReplaceEachEmpty(CleanupRules[1..]);
    assert Cleanup(s) == ReplaceEach(CleanupRules[1..], Replace(EmptyParagraph, s));
  }

  /** A cleanup pattern that does not match at a `<` steps over it and the
      text up to the next `<`. */
  lemma CleanSkip(r: Rule, a: string, rest: string, ls: bool)
    requires r in CleanupRules && a != [] && '<' !in a[1..]
    requires MatchAt(r, a + rest, ls).None?
    ensures ReplaceAll(r, a + rest, ls) == a + Replace(r, rest)
  {
    var s := a + rest;
    var b := a[1..];
    SkipParts(a, rest);
    ReplaceMiss(r, s, ls);
    CleanupStartsLt(r, b);
    CopyPrefix(r, b, rest, IsLineTerminator(a[0]));
    CleanupKinds(r);
    LineStartIrrelevant(r, rest);
    assert ReplaceAll(r, rest, After(b, IsLineTerminator(a[0]))) == Replace(r, rest);
    ConsAppend(a, Replace(r, rest));
  }

  lemma SkipParts(a: string, rest: string)
    requires a != []
    ensures var s := a + rest; s != [] && s[0] == a[0] && s[1..] == a[1..] + rest
  {
  }

  /** No cleanup pattern matches at an opening heading tag. */
  lemma NoCleanupAtHeading(r: Rule, s: string, ls: bool)
    requires r in CleanupRules && "<h" <= s
    ensures MatchAt(r, s, ls).None?
  {
    CleanupKinds(r);
    if r == EmptyParagraph {
      assert s[1] != "<p></p>"[1];
    } else if DropsOpening(r) {
      UnwrapMissLead(r.lead, r.tag, r.trail, s, ls, 1);
    } else {
      UnwrapMissTag(r.lead, r.tag, r.trail, s, ls, 1);
    }
  }

  /** No cleanup pattern matches at `</h1>` when no `</p>` follows it. */
  lemma NoCleanupAtHeadingEnd(r: Rule, s: string, ls: bool)
    requires r in CleanupRules && "</h1>" <= s && |s| > 5 && s[5] != '<'
    ensures MatchAt(r, s, ls).None?
  {
    CleanupKinds(r);
    if r == EmptyParagraph {
      assert s[1] != "<p></p>"[1];
    } else if DropsOpening(r) {
      UnwrapMissLead(r.lead, r.tag, r.trail, s, ls, 1);
    } else {
      ClosingMissAtHeadingEnd(r, s, ls);
    }
  }

  lemma ClosingMissAtHeadingEnd(r: Rule, s: string, ls: bool)
    requires DropsClosing(r) && "</h1>" <= s && |s| > 5 && s[5] != '<'
    ensures MatchAt(r, s, ls).None?
  {
    if r.tag[2] == Ch('h') {
      UnwrapMissTrail(r.lead, r.tag, r.trail, s, ls, 0);
    } else {
      UnwrapMissTag(r.lead, r.tag, r.trail, s, ls, 2);
    }
  }

  /** Every cleanup pattern steps over the end of a heading followed by a
      line of prose and a closing paragraph tag. */
  lemma CleanHeadingEnd(r: Rule, x: string, ls: bool)
    requires r in CleanupRules && PlainText(x)
    ensures ReplaceAll(r, "</h1>\n" + x + "</p>", ls) == "</h1>\n" + x + "</p>"
  {
    var a3 := "</h1>\n" + x;
    assert '<' !in a3[1..] by {
      assert a3[1..] == "/h1>\n" + x;
    }
    assert "</h1>" <= a3 + "</p>" && (a3 + "</p>")[5] == '\n';
    NoCleanupAtHeadingEnd(r, a3 + "</p>", ls);
    CleanSkip(r, a3, "</p>", ls);
    CleanClose(r, [], true);
    assert "</p>" + [] == "</p>";
  }

  /** Every cleanup pattern but the opening-heading one leaves a heading
      followed by prose and a closing paragraph tag alone. */
  lemma CleanHeadingOther(r: Rule, t: string, x: string)
    requires r in CleanupRules && r != OpenHeading && '<' !in t && PlainText(x)
    ensures Replace(r, "<h1>" + t + "</h1>\n" + x + "</p>") == "<h1>" + t + "</h1>\n" + x + "</p>"
  {
    var a2 := "<h1>" + t;
    var tail := "</h1>\n" + x + "</p>";
    assert "<h1>" + t + "</h1>\n" + x + "</p>" == a2 + tail;
    assert "<h" <= a2 + tail;
    NoCleanupAtHeading(r, a2 + tail, true);
    assert '<' !in a2[1..] by {
      assert a2[1..] == "h1>" + t;
    }
    CleanSkip(r, a2, tail, true);
    CleanHeadingEnd(r, x, true);
  }

  /** The opening-heading pattern removes the `<p>` in front of `<h1>`. */
  lemma CleanHeadingOpen(t: string, x: string)
    requires '<' !in t && PlainText(x)
    ensures Replace(OpenHeading, "<p><h1>" + t + "</h1>\n" + x + "</p>") == "<h1>" + t + "</h1>\n" + x + "</p>"
  {
    var tail := "</h1>\n" + x + "</p>";
    OpenHeadingTag();
    UnwrapHit("<p>", OpenHeading.tag, "", "<h1>", t + tail);
    HeadingOpenText(t, x);
    CleanupStartsLt(OpenHeading, t);
    CopyPrefix(OpenHeading, t, tail, true);
    CleanHeadingEnd(OpenHeading, x, After(t, true));
  }

  lemma OpenHeadingTag()
    ensures OpenHeading == Unwrap("<p>", OpenHeading.tag, "")
    ensures |OpenHeading.tag| == 4 && PatternAt(OpenHeading.tag, "<h1>")
  {
  }

  lemma HeadingOpenText(t: string, x: string)
    ensures var tail := "</h1>\n" + x + "</p>";
            && "<p><h1>" + t + "</h1>\n" + x + "</p>" == "<p>" + "<h1>" + "" + (t + tail)
            && "<h1>" + (t + tail) == "<h1>" + t + "</h1>\n" + x + "</p>"
  {
  }

  /** What the cleanup leaves of a first-level heading followed by a line
      of prose: the opening `<p>` goes, the closing `</p>` stays. */
  lemma CleanHeadingThenText(t: string, x: string)
    requires '<' !in t && PlainText(x)
    ensures Cleanup("<p><h1>" + t + "</h1>\n" + x + "</p>") == "<h1>" + t + "</h1>\n" + x + "</p>"
  {
    var w' := "<h1>" + t + "</h1>\n" + x + "</p>";
    HeadingDocParts(t, x);
    EmptyParaSkipsHeading(t, x);
    CleanHeadingOpen(t, x);
    LaterRulesKeepHeading(t, x);
    CleanupSteps("<p>" + w');
  }

  lemma HeadingDocParts(t: string, x: string)
    ensures "<p><h1>" + t + "</h1>\n" + x + "</p>" == "<p>" + ("<h1>" + t + "</h1>\n" + x + "</p>")
  {
  }

  /** The empty-paragraph pattern leaves a paragraph that starts with a
      heading alone. */
  lemma EmptyParaSkipsHeading(t: string, x: string)
    requires '<' !in t && PlainText(x)
    ensures var w' := "<h1>" + t + "</h1>\n" + x + "</p>";
            Replace(EmptyParagraph, "<p>" + w') == "<p>" + w'
  {
    var w' := "<h1>" + t + "</h1>\n" + x + "</p>";
    EmptyParaMiss(w');
    CleanSkip(EmptyParagraph, "<p>", w', true);
    CleanHeadingOther(EmptyParagraph, t, x);
  }

  lemma EmptyParaMiss(w: string)
    requires "<h" <= w
    ensures MatchAt(EmptyParagraph, "<p>" + w, true).None?
  {
    assert ("<p>" + w)[4] == 'h';
  }

  /** The cleanup patterns after the opening-heading one leave a heading
      followed by prose alone. */
  lemma LaterRulesKeepHeading(t: string, x: string)
    requires '<' !in t && PlainText(x)
    ensures var w' := "<h1>" + t + "</h1>\n" + x + "</p>";
            ReplaceEach(CleanupRules[2..], w') == w'
  {
    var w' := "<h1>" + t + "</h1>\n" + x + "</p>";
    var later := CleanupRules[2..];
    forall r | r in later ensures Replace(r, w') == w' {
      LaterRule(r);
      CleanHeadingOther(r, t, x);
    }
    ReplaceEachFixed(later, w');
  }

  lemma LaterRule(r: Rule)
    requires r in CleanupRules[2..]
    ensures r in CleanupRules && r != OpenHeading
  {
    assert CleanupRules[2..] == [CloseHeading, OpenPre, ClosePre, OpenList, CloseList, OpenQuote, CloseQuote];
    if r == OpenList { assert r.tag[1] != OpenHeading.tag[1]; }
  }

  /** The cleanup applies the empty-paragraph pattern, then the
      opening-heading one, then the rest. */
  lemma CleanupSteps(s: string)
    ensures Cleanup(s) == ReplaceEach(CleanupRules[2..], Replace(OpenHeading, Replace(EmptyParagraph, s)))
  {
    var rest := CleanupRules[1..];
    assert CleanupRules[0] == EmptyParagraph && rest[0] == OpenHeading && rest[1..] == CleanupRules[2..];
    calc {
      Cleanup(s);
      ReplaceEach(rest, Replace(EmptyParagraph, s));
      ReplaceEach(rest[1..], Replace(OpenHeading, Replace(EmptyParagraph, s)));
    }
  }

  /** Inline text of a heading: one line without markup characters. */
  predicate HeadingText(t: string)
  {
    NoLineTerminator(t) && '`' !in t && '*' !in t && '<' !in t
  }

  lemma HeadingTextBlock(t: string, x: string)
    requires HeadingText(t) && PlainText(x)
    ensures NoLineTerminator("<h1>" + t + "</h1>")
    ensures '`' !in "<h1>" + t + "</h1>" + "\n" + x
    ensures '*' !in "<h1>" + t + "</h1>" + "\n" + x
  {
    var h := "<h1>" + t + "</h1>";
    forall i | 0 <= i < |h| ensures !IsLineTerminator(h[i]) {
      if 4 <= i < 4 + |t| { assert h[i] == t[i - 4]; }
    }
  }

  /** No `<li>` occurs in a heading followed by prose. */
  lemma NoItemTag(t: string, x: string)
    requires HeadingText(t) && PlainText(x)
    ensures forall k: nat :: !OccursAt("<h1>" + t + "</h1>" + "\n" + x, "<li>", k)
  {
    var s := "<h1>" + t + "</h1>" + "\n" + x;
    var e := 4 + |t|;
    forall k: nat | k + 4 <= |s| ensures s[k] != '<' || s[k + 1] != 'l' {
      if k == 0 || k == e {
        assert s[k + 1] == 'h' || s[k + 1] == '/';
      } else if k < 4 {
        assert s[k] == "<h1>"[k];
      } else if k < e {
        assert s[k] == t[k - 4] && t[k - 4] in t;
      } else if k < e + 6 {
        assert s[k] == "</h1>\n"[k - e];
      } else {
        assert s[k] == x[k - e - 6] && x[k - e - 6] in x;
      }
    }
    forall k: nat ensures !OccursAt(s, "<li>", k) {
      if k + 4 <= |s| {
        assert s[k..k + 4][0] == s[k] && s[k..k + 4][1] == s[k + 1];
      }
    }
  }

  /** The heading stage on a first-level heading followed by prose. */
  lemma HeadingThenTextHeadings(t: string, x: string)
    requires HeadingText(t) && PlainText(x)
    ensures Headings("# " + t + "\n" + x) == "<h1>" + t + "</h1>" + "\n" + x
  {
    var l := "# " + t;
    assert NoLineTerminator(l) by {
      forall i | 0 <= i < |l| ensures !IsLineTerminator(l[i]) {
        if i >= 2 { assert l[i] == t[i - 2]; }
      }
    }
    assert "# " + t + "\n" + x == l + ['\n'] + x;
    HeadingsStep(l, '\n', x);
    HeadingsLast(x);
    PlainLineUnchanged(x);
    assert HeadingLine(l) == "<h1>" + t + "</h1>" by {
      assert l[1] == ' ' && l[2..] == t;
    }
  }

  lemma HeadingThenTextInline(t: string, x: string)
    requires HeadingText(t) && PlainText(x)
    ensures var s := "<h1>" + t + "</h1>" + "\n" + x; CodeAndEmphasis(s) == s
  {
    var s := "<h1>" + t + "</h1>" + "\n" + x;
    HeadingTextBlock(t, x);
    Avoided(Fence, '`', s);
    Avoided(InlineCode, '`', s);
    Avoided(Bold, '*', s);
    Avoided(Italic, '*', s);
    InlineByRule(s);
  }

  lemma HeadingThenTextLists(t: string, x: string)
    requires HeadingText(t) && PlainText(x)
    ensures var s := "<h1>" + t + "</h1>" + "\n" + x; Lists(s) == s
  {
    var h := "<h1>" + t + "</h1>";
    var s := h + "\n" + x;
    HeadingTextBlock(t, x);
    PlainLineUnchanged(x);
    assert s == h + ['\n'] + x;
    ItemsStep(h, '\n', x);
    ItemsLast(x);
    assert ItemLine(h) == h by { assert DigitRun(h) == 0; }
    NoItemTag(t, x);
  }

  lemma HeadingThenTextQuotes(t: string, x: string)
    requires HeadingText(t) && PlainText(x)
    ensures var s := "<h1>" + t + "</h1>" + "\n" + x; Blockquotes(s) == s
  {
    var h := "<h1>" + t + "</h1>";
    var s := h + "\n" + x;
    HeadingTextBlock(t, x);
    PlainLineUnchanged(x);
    assert s == h + ['\n'] + x;
    LineStep(Prefix("> "), "<blockquote>", "</blockquote>", h, '\n', x);
    LastLine(Prefix("> "), "<blockquote>", "</blockquote>", x);
  }

  lemma HeadingThenTextBreaks(t: string, x: string)
    requires HeadingText(t) && PlainText(x)
    ensures var s := "<h1>" + t + "</h1>" + "\n" + x; Replace(Break, s) == s
  {
    var h := "<h1>" + t + "</h1>";
    var s := h + "\n" + x;
    HeadingTextBlock(t, x);
    assert forall i :: 0 <= i < |h| ==> !Starts(Break, h[i]);
    assert s == h + ("\n" + x);
    CopyPrefix(Break, h, "\n" + x, true);
    assert ("\n" + x)[1] == x[0];
    assert ("\n" + x)[1..] == x;
    assert '\n' !in x by {
      forall i | 0 <= i < |x| ensures x[i] != '\n' { assert !IsLineTerminator(x[i]); }
    }
    InertAt(Break, x);
  }

  lemma HeadingForms(t: string, x: string)
    ensures "<p>" + ("<h1>" + t + "</h1>" + "\n" + x) + "</p>" == "<p><h1>" + t + "</h1>\n" + x + "</p>"
    ensures "<h1>" + t + "</h1>\n" + x + "</p>" == ("<h1>" + t + "</h1>" + "\n" + x) + "</p>"
  {
  }

  /** `# T` followed by a line of prose: the heading is rewritten, the
      opening paragraph tag in front of it is removed, and the closing one
      is left after the prose without a partner. */
  lemma HeadingThenText(t: string, x: string)
    requires HeadingText(t) && PlainText(x)
    ensures MarkdownToHtml("# " + t + "\n" + x) == "<h1>" + t + "</h1>\n" + x + "</p>"
  {
    var s := "<h1>" + t + "</h1>" + "\n" + x;
    HeadingThenTextHeadings(t, x);
    HeadingThenTextInline(t, x);
    HeadingThenTextLists(t, x);
    HeadingThenTextQuotes(t, x);
    HeadingThenTextBreaks(t, x);
    HeadingForms(t, x);
    CleanHeadingThenText(t, x);
  }

  /** The document `# T`, newline, `x`. */
  lemma HeadingThenTextExample()
    ensures MarkdownToHtml("# T\nx") == "<h1>T</h1>\nx</p>"
  {
    HeadingThenTextExampleText();
    HeadingThenText("T", "x");
  }

  lemma HeadingThenTextExampleText()
    ensures HeadingText("T") && PlainText("x")
    ensures "# " + "T" + "\n" + "x" == "# T\nx"
    ensures "<h1>" + "T" + "</h1>\n" + "x" + "</p>" == "<h1>T</h1>\nx</p>"
  {
  }

  /** The document `Hello`. */
  lemma HelloExample()
    ensures MarkdownToHtml("Hello") == "<p>Hello</p>"
  {
    HelloExampleText();
  }

  lemma HelloExampleText()
    ensures PlainText("Hello")
    ensures "<p>" + "Hello" + "</p>" == "<p>Hello</p>"
  {
  }

  /** The document `a`, blank line, `b`. */
  lemma TwoParagraphsExample()
    ensures MarkdownToHtml("a\n\nb") == "<p>a</p><p>b</p>"
  {
    TwoParagraphsExampleText();
    TwoParagraphs("a", "b");
  }

  lemma TwoParagraphsExampleText()
    ensures PlainText("a") && PlainText("b")
    ensures "a" + "\n\n" + "b" == "a\n\nb"
    ensures "<p>" + "a" + "</p><p>" + "b" + "</p>" == "<p>a</p><p>b</p>"
  {
  }

  lemma JoinThree(a: string, b: string, c: string, sep: string)
    ensures Join([a, b, c], sep) == a + sep + b + sep + c
  {
    assert [a, b, c][1..] == [b, c] && [b, c][1..] == [c];
    assert Join([b, c], sep) == b + sep + c;
  }

  /** Headings are rewritten before code blocks are recognised, so a
      heading line inside a fenced block comes out as a heading inside
      the `pre`/`code` block. */
  lemma HeadingInsideFence(x: string)
    requires HeadingText(x)
    ensures CodeAndEmphasis(Headings("```\n# " + x + "\n```"))
         == "<pre><code>" + ("<h1>" + x + "</h1>\n") + "</code></pre>"
  {
    var body := "<h1>" + x + "</h1>\n";
    HeadingsInFence(x);
    HeadingBodyAvoids(x);
    FencedBlock("", body);
  }

  lemma HeadingBodyAvoids(x: string)
    requires HeadingText(x)
    ensures '`' !in "<h1>" + x + "</h1>\n" && '*' !in "<h1>" + x + "</h1>\n"
  {
    assert '`' !in "<h1>" && '`' !in "</h1>\n";
    assert '*' !in "<h1>" && '*' !in "</h1>\n";
  }

  /** The heading stage on the lines of a fenced block: only the middle
      line is a heading. */
  lemma HeadingsInFence(x: string)
    requires HeadingText(x)
    ensures Headings("```\n# " + x + "\n```") == "```" + "" + "\n" + ("<h1>" + x + "</h1>\n") + "```"
  {
    var l := "# " + x;
    var h := "<h1>" + x + "</h1>";
    var lines := ["```", l, "```"];
    assert NoLineTerminator(l) by {
      forall i | 0 <= i < |l| ensures !IsLineTerminator(l[i]) {
        if i >= 2 { assert l[i] == x[i - 2]; }
      }
    }
    FenceLinesText(x);
    HeadingsByLine(lines);
    assert HeadingLine(l) == h by {
      assert l[1] == ' ' && l[2..] == x;
    }
    assert HeadingLines(lines) == ["```", h, "```"] by {
      assert lines[1..] == [l, "```"] && lines[1..][1..] == ["```"];
      assert HeadingLines(["```"]) == ["```"];
    }
  }

  lemma FenceLinesText(x: string)
    ensures Join(["```", "# " + x, "```"], "\n") == "```\n# " + x + "\n```"
    ensures Join(["```", "<h1>" + x + "</h1>", "```"], "\n")
         == "```" + "" + "\n" + ("<h1>" + x + "</h1>\n") + "```"
  {
    JoinThree("```", "# " + x, "```", "\n");
    JoinThree("```", "<h1>" + x + "</h1>", "```", "\n");
  }

  /** List items are rewritten after code blocks are recognised, so an
      item line inside a fenced block becomes a list inside the
      `pre`/`code` block. */
  lemma ItemInsideFence(x: string, a: string)
    requires HeadingText(x) && HeadingText(a)
    ensures Lists(CodeAndEmphasis("```\n" + x + "\n- " + a + "\n```"))
         == "<pre><code>" + x + "\n<ul><li>" + a + "</li></ul>\n</code></pre>"
  {
    var body := x + "\n- " + a + "\n";
    var lines := ["<pre><code>" + x, "- " + a, "</code></pre>"];
    ItemFenceBlock(x, a);
    ItemFenceLines(x, a);
    ItemsByLine(lines);
    ItemFenceItems(x, a);
    ItemFenceWrap(x, a);
  }

  lemma ItemFenceBlock(x: string, a: string)
    requires HeadingText(x) && HeadingText(a)
    ensures CodeAndEmphasis("```\n" + x + "\n- " + a + "\n```")
         == "<pre><code>" + (x + "\n- " + a + "\n") + "</code></pre>"
  {
    var body := x + "\n- " + a + "\n";
    assert '`' !in body && '*' !in body by {
      assert '`' !in "\n- " && '*' !in "\n- " && '`' !in "\n" && '*' !in "\n";
    }
    FencedBlock("", body);
    FenceLiterals();
    RegroupFour("```\n", x, "\n- ", a, "\n", "```");
  }

  lemma RegroupFour(f: string, x: string, m: string, a: string, c: string, e: string)
    ensures f + (x + m + a + c) + e == f + x + m + a + (c + e)
  {
  }

  lemma ItemFenceLines(x: string, a: string)
    requires HeadingText(x) && HeadingText(a)
    ensures forall l <- ["<pre><code>" + x, "- " + a, "</code></pre>"] :: NoLineTerminator(l)
    ensures Join(["<pre><code>" + x, "- " + a, "</code></pre>"], "\n")
         == "<pre><code>" + (x + "\n- " + a + "\n") + "</code></pre>"
  {
    var p := "<pre><code>" + x;
    var l := "- " + a;
    forall i | 0 <= i < |p| ensures !IsLineTerminator(p[i]) {
      if i >= 11 { assert p[i] == x[i - 11]; }
    }
    forall i | 0 <= i < |l| ensures !IsLineTerminator(l[i]) {
      if i >= 2 { assert l[i] == a[i - 2]; }
    }
    CloseCodeLine();
    JoinThree(p, l, "</code></pre>", "\n");
  }

  lemma CloseCodeLine()
    ensures NoLineTerminator("</code></pre>")
  {
    var c := "</code></pre>";
    forall i | 0 <= i < |c| ensures !IsLineTerminator(c[i]) {
      assert c[i] in c;
    }
  }

  /** Only the middle line is an item: the first begins with the
      `<pre><code>` the code block added. */
  lemma ItemFenceItems(x: string, a: string)
    ensures ItemLines(["<pre><code>" + x, "- " + a, "</code></pre>"])
         == ["<pre><code>" + x, "<li>" + a + "</li>", "</code></pre>"]
  {
    ItemLinesThree("<pre><code>" + x, "- " + a, "</code></pre>");
    TagLineNotItem("<pre><code>" + x);
    TagLineNotItem("</code></pre>");
    assert ("- " + a)[2..] == a;
  }

  lemma ItemLinesThree(l0: string, l1: string, l2: string)
    ensures ItemLines([l0, l1, l2]) == [ItemLine(l0), ItemLine(l1), ItemLine(l2)]
  {
    assert [l0, l1, l2][1..] == [l1, l2];
    ItemLinesTwo(l1, l2);
  }

  lemma ItemLinesTwo(l0: string, l1: string)
    ensures ItemLines([l0, l1]) == [ItemLine(l0), ItemLine(l1)]
  {
    assert [l0, l1][1..] == [l1];
    assert [l1][1..] == [];
    assert ItemLines([l1]) == [ItemLine(l1)] + ItemLines([]);
  }

  /** A line that begins with a tag is not an item. */
  lemma TagLineNotItem(u: string)
    requires u != [] && u[0] == '<'
    ensures ItemLine(u) == u
  {
    assert DigitRun(u) == 0;
  }

  lemma ItemFenceWrap(x: string, a: string)
    requires HeadingText(x)
    ensures WrapList(Join(["<pre><code>" + x, "<li>" + a + "</li>", "</code></pre>"], "\n"))
         == "<pre><code>" + x + "\n<ul><li>" + a + "</li></ul>\n</code></pre>"
  {
    var A := "<pre><code>" + x + "\n";
    var B := "\n</code></pre>";
    ItemFenceJoin(x, a);
    PreCodeNoItem(x, "\n");
    assert A[|A| - 1] == '\n';
    assert 'i' !in B;
    WrapItemBetween(A, a, B);
    ItemFenceWrapped(x, a);
  }

  lemma ItemFenceJoin(x: string, a: string)
    ensures Join(["<pre><code>" + x, "<li>" + a + "</li>", "</code></pre>"], "\n")
         == ("<pre><code>" + x + "\n") + "<li>" + a + "</li>" + "\n</code></pre>"
  {
    JoinThree("<pre><code>" + x, "<li>" + a + "</li>", "</code></pre>", "\n");
  }

  lemma ItemFenceWrapped(x: string, a: string)
    ensures ("<pre><code>" + x + "\n") + "<ul><li>" + a + "</li></ul>" + "\n</code></pre>"
         == "<pre><code>" + x + "\n<ul><li>" + a + "</li></ul>\n</code></pre>"
  {
  }

  /** An item between text without `<li>` and text without `i` is
      wrapped on its own. */
  lemma WrapItemBetween(front: string, a: string, b: string)
    requires front != [] && front[|front| - 1] != '<' && NoItemOpening(front)
    requires 'i' !in b
    ensures WrapList(front + "<li>" + a + "</li>" + b) == front + "<ul><li>" + a + "</li></ul>" + b
  {
    var j := front + "<li>" + a + "</li>" + b;
    var p := |front|;
    var q := |front| + 4 + |a|;
    assert j == front + "<li>" + (a + "</li>" + b);
    FirstItemAt(front, a + "</li>" + b);
    assert j == (front + "<li>" + a) + "</li>" + b;
    LastItemAt(front + "<li>" + a, b);
    WrapAt(j, p, q);
    ItemSlices(front, a, b);
  }

  /** `WrapList` at a known first `<li>` and last `</li>`. */
  lemma WrapAt(j: string, p: nat, q: nat)
    requires FirstAt(j, "<li>", p) && LastAt(j, "</li>", q) && p + 4 <= q
    ensures WrapList(j) == j[..p] + "<ul>" + j[p..q + 5] + "</ul>" + j[q + 5..]
  {
  }

  lemma ItemSlices(front: string, a: string, b: string)
    ensures var j := front + "<li>" + a + "</li>" + b;
            var p := |front|;
            var q := |front| + 4 + |a|;
            j[..p] + "<ul>" + j[p..q + 5] + "</ul>" + j[q + 5..] == front + "<ul><li>" + a + "</li></ul>" + b
  {
    var j := front + "<li>" + a + "</li>" + b;
    var p := |front|;
    var q := |front| + 4 + |a|;
    assert j[..p] == front && j[p..q + 5] == "<li>" + a + "</li>" && j[q + 5..] == b;
  }

  /** No `<` of `s` is followed by `l`, so no `<li>` begins in `s`. */
  predicate NoItemOpening(s: string)
  {
    forall k :: 0 <= k < |s| - 1 ==> s[k] != '<' || s[k + 1] != 'l'
  }

  lemma PreCodeNoItem(u: string, t: string)
    requires '<' !in u && 'l' !in t && t != []
    ensures NoItemOpening("<pre><code>" + u + t)
  {
    var s := "<pre><code>" + u + t;
    forall k | 0 <= k < |s| - 1 ensures s[k] != '<' || s[k + 1] != 'l' {
      if k < 10 {
        assert s[k + 1] == "<pre><code>"[k + 1] && 'l' !in "<pre><code>";
      } else if k < 11 {
        assert s[k] == '>';
      } else if k < 11 + |u| {
        assert s[k] == u[k - 11] && u[k - 11] in u;
      } else {
        assert s[k + 1] == t[k + 1 - 11 - |u|] && t[k + 1 - 11 - |u|] in t;
      }
    }
  }

  lemma NoItemIn(s: string)
    requires NoItemOpening(s)
    ensures forall k: nat :: !OccursAt(s, "<li>", k)
  {
    forall k: nat | k + 4 <= |s| ensures !OccursAt(s, "<li>", k) {
      assert s[k..k + 4][0] == s[k] && s[k..k + 4][1] == s[k + 1];
    }
  }

  lemma FirstItemAt(a: string, rest: string)
    requires a != [] && a[|a| - 1] != '<' && NoItemOpening(a)
    ensures FirstAt(a + "<li>" + rest, "<li>", |a|)
  {
    var s := a + "<li>" + rest;
    assert s[|a|..|a| + 4] == "<li>";
    forall k: nat | k < |a| ensures !OccursAt(s, "<li>", k) {
      assert s[k] == a[k];
      if k + 1 < |a| {
        assert s[k + 1] == a[k + 1];
      }
      assert s[k..k + 4][0] == s[k] && s[k..k + 4][1] == s[k + 1];
    }
  }

  lemma LastItemAt(front: string, b: string)
    requires 'i' !in b
    ensures LastAt(front + "</li>" + b, "</li>", |front|)
  {
    var s := front + "</li>" + b;
    var q := |front|;
    assert s[q..q + 5] == "</li>";
    forall k: nat | q < k ensures !OccursAt(s, "</li>", k) {
      if k + 5 <= |s| {
        assert s[k..k + 5][3] == s[k + 3];
        if k + 3 == q + 4 {
          assert s[k + 3] == '>';
        } else {
          assert s[k + 3] == b[k + 3 - q - 5] && b[k + 3 - q - 5] in b;
        }
      }
    }
  }

  /** An item on the first line of a fenced block shares its line with
      `<pre><code>` and is therefore left as it is. */
  lemma FirstLineItemInFence(a: string)
    requires HeadingText(a)
    ensures Lists(CodeAndEmphasis("```\n- " + a + "\n```")) == "<pre><code>- " + a + "\n</code></pre>"
  {
    var u := "- " + a;
    var out := "<pre><code>- " + a + "\n</code></pre>";
    FirstLineItemBlock(a);
    FirstLineItemLines(a);
    ItemsByLine(["<pre><code>- " + a, "</code></pre>"]);
    FirstLineNoItem(a);
    NoItemIn(out);
  }

  lemma FirstLineItemBlock(a: string)
    requires HeadingText(a)
    ensures CodeAndEmphasis("```\n- " + a + "\n```") == "<pre><code>- " + a + "\n</code></pre>"
  {
    var body := "- " + a + "\n";
    assert '`' !in body && '*' !in body by {
      assert '`' !in "- " && '*' !in "- " && '`' !in "\n" && '*' !in "\n";
    }
    FencedBlock("", body);
    FenceLiterals();
    Regroup("```\n", "- ", a, "\n", "```");
    Regroup("<pre><code>", "- ", a, "\n", "</code></pre>");
  }

  /** Regrouping a concatenation around its middle part. */
  lemma Regroup(f: string, b: string, a: string, c: string, e: string)
    ensures f + (b + a + c) + e == (f + b) + a + (c + e)
  {
  }

  lemma FenceLiterals()
    ensures "```" + "" + "\n" == "```\n"
    ensures "```\n" + "- " == "```\n- " && "\n" + "```" == "\n```"
    ensures "<pre><code>" + "- " == "<pre><code>- " && "\n" + "</code></pre>" == "\n</code></pre>"
  {
  }

  lemma FirstLineNoItem(a: string)
    requires HeadingText(a)
    ensures NoItemOpening("<pre><code>- " + a + "\n</code></pre>")
  {
    assert '<' !in "- " + a by {
      assert '<' !in "- ";
    }
    PreCodeNoItem("- " + a, "\n</code></pre>");
    assert "<pre><code>" + ("- " + a) + "\n</code></pre>" == "<pre><code>- " + a + "\n</code></pre>";
  }

  lemma FirstLineItemLines(a: string)
    requires HeadingText(a)
    ensures forall l <- ["<pre><code>- " + a, "</code></pre>"] :: NoLineTerminator(l)
    ensures Join(["<pre><code>- " + a, "</code></pre>"], "\n") == "<pre><code>- " + a + "\n</code></pre>"
    ensures ItemLines(["<pre><code>- " + a, "</code></pre>"]) == ["<pre><code>- " + a, "</code></pre>"]
  {
    var p := "<pre><code>- " + a;
    FirstLineFree(a);
    CloseCodeLine();
    JoinTwo(p, "</code></pre>", "\n");
    FenceLiterals();
    Assoc(p, "\n", "</code></pre>");
    ItemLinesTwo(p, "</code></pre>");
    TagLineNotItem(p);
    TagLineNotItem("</code></pre>");
  }

  lemma FirstLineFree(a: string)
    requires HeadingText(a)
    ensures NoLineTerminator("<pre><code>- " + a)
  {
    var p := "<pre><code>- " + a;
    forall i | 0 <= i < |p| ensures !IsLineTerminator(p[i]) {
      if i >= 13 { assert p[i] == a[i - 13]; }
    }
  }

  lemma JoinTwo(a: string, b: string, sep: string)
    ensures Join([a, b], sep) == a + sep + b
  {
    assert [a, b][1..] == [b];
  }
}
