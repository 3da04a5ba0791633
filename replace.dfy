/** `String.prototype.replace` for the handful of regular expressions the
    blog loader uses. Each pattern is hand-coded as a matcher at one
    position (`MatchAt`); `ReplaceAll` is the scan that a global (`g`)
    replacement performs: try the leftmost position first, after a match
    continue right behind it, never overlap two matches. `^` under the `m`
    flag holds at the start of the text and right after a line terminator. */
module RegexReplace {
  import opened Wrappers
  import opened JsText

  /** One position of a fixed-length pattern: a literal character, or the
      class `[1-6]` of the heading-level digit. */
  datatype Sym = Ch(c: char) | HeadingDigit

  predicate SymMatches(y: Sym, c: char)
  {
    match y
    case Ch(d) => c == d
    case HeadingDigit => '1' <= c <= '6'
  }

  /** The fixed-length pattern that matches exactly the text `t`. */
  function Lit(t: string): (p: seq<Sym>)
    ensures |p| == |t| && forall i :: 0 <= i < |t| ==> p[i] == Ch(t[i])
  {
    seq(|t|, i requires 0 <= i < |t| => Ch(t[i]))
  }

  /** `pat` matches a prefix of `s`. */
  predicate PatternAt(pat: seq<Sym>, s: string)
  {
    |pat| <= |s| && forall i :: 0 <= i < |pat| ==> SymMatches(pat[i], s[i])
  }

  /** What a line-anchored pattern requires at the start of a line:
      a literal text (`^### `, `^\- `, `^> `) or an ordinal (`^\d+\. `). */
  datatype Marker = Prefix(text: string) | Ordinal

  /** The rest of `line` after its marker, when the line begins with one. */
  function MarkerRest(m: Marker, line: string): (r: Option<string>)
    ensures r.Some? ==> |r.value| <= |line| && r.value == line[|line| - |r.value|..]
  {
    match m
    case Prefix(p) => if p <= line then Some(line[|p|..]) else None
    case Ordinal =>
      var d := DigitRun(line);
      if d > 0 && ". " <= line[d..] then Some(line[d + 2..]) else None
  }

  /** The regular expressions of the blog loader, by shape. */
  datatype Rule =
      /** `/^marker(.*)$/gm` replaced by `open$1close` */
    | Line(marker: Marker, open: string, close: string)
      /** `/```(\w+)?\n([\s\S]*?)```/g` replaced by `<pre><code>$2</code></pre>` */
    | Fence
      /** `/D([^d]+)D/g` replaced by `open$1close`, where `d` is the first
          character of the delimiter `D` (`` ` ``, `**`, `*`) */
    | Span(delim: string, open: string, close: string)
      /** a literal pattern replaced by a literal text */
    | Swap(pat: string, rep: string)
      /** `/lead(tag)trail/g` replaced by `$1`: drops `lead` and `trail` */
    | Unwrap(lead: string, tag: seq<Sym>, trail: string)

  /** A match: how many characters it spans and what replaces them. */
  datatype Hit = Hit(len: nat, out: string)

  /** Index of the first line terminator of `s`, or `|s|`. */
  function LineEnd(s: string): (e: nat)
    ensures e <= |s| && NoLineTerminator(s[..e])
    ensures e == |s| || IsLineTerminator(s[e])
  {
    if s == [] || IsLineTerminator(s[0]) then 0
    else
      var e := 1 + LineEnd(s[1..]);
      assert s[..e] == [s[0]] + s[1..][..e - 1];
      e
  }

  /** Characters at which a match of `r` can begin. */
  predicate Starts(r: Rule, c: char)
  {
    match r
    case Line(m, _, _) => if m.Prefix? then m.text != [] && c == m.text[0] else IsDigit(c)
    case Fence => c == '`'
    case Span(d, _, _) => d != [] && c == d[0]
    case Swap(p, _) => p != [] && c == p[0]
    case Unwrap(l, t, tr) =>
      if l != [] then c == l[0]
      else if t != [] then SymMatches(t[0], c)
      else tr != [] && c == tr[0]
  }

  /** The match of `r` that begins at the first character of `s`, if any.
      `atLineStart` says whether `^` holds there under the `m` flag. Every
      pattern used is non-empty, so a match always consumes something. */
  function MatchAt(r: Rule, s: string, atLineStart: bool): (h: Option<Hit>)
    ensures h.Some? ==> 0 < h.value.len <= |s| && Starts(r, s[0])
  {
    match r
    case Line(m, open, close) => if atLineStart then LineAt(m, open, close, s) else None
    case Fence => FenceAt(s)
    case Span(d, open, close) => SpanAt(d, open, close, s)
    case Swap(p, rep) => if p != [] && p <= s then Some(Hit(|p|, rep)) else None
    case Unwrap(lead, tag, trail) => UnwrapAt(lead, tag, trail, s)
  }

  /** `^marker(.*)$` at the start of a line: the whole line up to its
      terminator, when it begins with the marker. */
  function LineAt(m: Marker, open: string, close: string, s: string): (h: Option<Hit>)
    ensures h.Some? ==> 0 < h.value.len <= |s| && Starts(Line(m, open, close), s[0])
  {
    if !ProperMarker(m) then None
    else
      var e := LineEnd(s);
      match MarkerRest(m, s[..e])
      case Some(rest) =>
        assert 0 < e && Starts(Line(m, open, close), s[0]) by {
          assert s[..e][0] == s[0];
        }
        Some(Hit(e, open + rest + close))
      case None => None
  }

  /** ```` ```(\w+)?\n([\s\S]*?)``` ````: an optional tag, a newline, and the
      body up to the nearest closing fence. */
  function FenceAt(s: string): (h: Option<Hit>)
    ensures h.Some? ==> 0 < h.value.len <= |s| && s[0] == '`'
  {
    if "```" <= s then FenceBody(s, 3 + WordRun(s[3..])) else None
  }

  /** The rest of a fence match once the tag ends at `w`. */
  function FenceBody(s: string, w: nat): (h: Option<Hit>)
    requires 3 <= w <= |s|
    ensures h.Some? ==> w < h.value.len <= |s|
  {
    if w < |s| && s[w] == '\n' then
      match IndexOf(s, "```", w + 1)
      case Some(k) => Some(Hit(k + 3, "<pre><code>" + s[w + 1..k] + "</code></pre>"))
      case None => None
    else None
  }

  /** `D([^d]+)D`: the shortest non-empty run free of `d` between two
      copies of the delimiter. */
  function SpanAt(d: string, open: string, close: string, s: string): (h: Option<Hit>)
    ensures h.Some? ==> 0 < h.value.len <= |s| && d != [] && s[0] == d[0]
  {
    if d == [] || !(d <= s) then None
    else
      match IndexOf(s, [d[0]], |d|)
      case Some(q) =>
        if q > |d| && d <= s[q..] then Some(Hit(q + |d|, open + s[|d|..q] + close))
        else None
      case None => None
  }

  /** `lead(tag)trail`, keeping only the tag. */
  function UnwrapAt(lead: string, tag: seq<Sym>, trail: string, s: string): (h: Option<Hit>)
    ensures h.Some? ==> 0 < h.value.len <= |s| && Starts(Unwrap(lead, tag, trail), s[0])
  {
    var n := |lead| + |tag|;
    if n + |trail| > 0 && lead <= s && PatternAt(tag, s[|lead|..]) && trail <= s[n..] then
      assert lead == [] && tag != [] ==> SymMatches(tag[0], s[0]) by {
        if lead == [] && tag != [] { assert s[|lead|..][0] == s[0]; }
      }
      Some(Hit(n + |trail|, s[|lead|..n]))
    else None
  }

  /** Whether `^` holds after the text `a` was consumed, when it held before. */
  function After(a: string, atLineStart: bool): bool
  {
    if a == [] then atLineStart else IsLineTerminator(a[|a| - 1])
  }

  /** The result of replacing every match of `r` in `s`, scanning left to
      right. A text in which no match can begin comes out unchanged. */
  function ReplaceAll(r: Rule, s: string, atLineStart: bool): (out: string)
    decreases |s|
    ensures Inert(r, s) ==> out == s
  {
    if s == [] then []
    else
      match MatchAt(r, s, atLineStart)
      case Some(h) => h.out + ReplaceAll(r, s[h.len..], IsLineTerminator(s[h.len - 1]))
      case None =>
        assert [s[0]] + s[1..] == s;
        [s[0]] + ReplaceAll(r, s[1..], IsLineTerminator(s[0]))
  }

  /** `text.replace(r, ...)` on a whole text. */
  function Replace(r: Rule, text: string): (out: string)
    ensures Inert(r, text) ==> out == text
  {
    ReplaceAll(r, text, true)
  }

  /** No character of `s` can begin a match of `r`. */
  predicate Inert(r: Rule, s: string)
  {
    s == [] || (!Starts(r, s[0]) && Inert(r, s[1..]))
  }

  /** `Inert` holds exactly when no position of `s` can begin a match. */
  lemma {:induction false} InertAt(r: Rule, s: string)
    ensures Inert(r, s) <==> forall i :: 0 <= i < |s| ==> !Starts(r, s[i])
  {
    if s != [] {
      InertAt(r, s[1..]);
      assert forall i :: 0 < i < |s| ==> s[i] == s[1..][i - 1];
    }
  }

  /** Text in which no match of `r` can begin is copied unchanged. */
  lemma {:induction false} CopyPrefix(r: Rule, a: string, b: string, atLineStart: bool)
    requires forall i :: 0 <= i < |a| ==> !Starts(r, a[i])
    ensures ReplaceAll(r, a + b, atLineStart) == a + ReplaceAll(r, b, After(a, atLineStart))
    decreases |a|
  {
    if a != [] {
      var ls' := IsLineTerminator(a[0]);
      CopyFirst(r, a, b, atLineStart);
      CopyPrefix(r, a[1..], b, ls');
      AfterRest(a, atLineStart);
      ConsAppend(a, ReplaceAll(r, b, After(a, atLineStart)));
    } else {
      assert a + b == b;
    }
  }

  /** One character at which no match begins is copied. */
  lemma CopyFirst(r: Rule, a: string, b: string, atLineStart: bool)
    requires a != [] && !Starts(r, a[0])
    ensures ReplaceAll(r, a + b, atLineStart)
         == [a[0]] + ReplaceAll(r, a[1..] + b, IsLineTerminator(a[0]))
  {
    var s := a + b;
    assert s[0] == a[0] && s[1..] == a[1..] + b;
    assert MatchAt(r, s, atLineStart).None?;
  }

  lemma AfterRest(a: string, atLineStart: bool)
    requires a != []
    ensures After(a[1..], IsLineTerminator(a[0])) == After(a, atLineStart)
  {
    if |a| > 1 {
      assert a[1..][|a| - 2] == a[|a| - 1];
    }
  }

  /** Only line-anchored patterns depend on whether `^` holds. */
  lemma {:induction false} LineStartIrrelevant(r: Rule, s: string)
    requires !r.Line?
    ensures ReplaceAll(r, s, false) == ReplaceAll(r, s, true)
    decreases |s|
  {
    if s != [] {
      match MatchAt(r, s, true)
      case Some(h) => LineStartIrrelevant(r, s[h.len..]);
      case None => LineStartIrrelevant(r, s[1..]);
    }
  }

  // ---------------------------------------------------------------------
  // Line-anchored rules rewrite a text line by line.

  /** What a line-anchored rule makes of one line (without its terminator). */
  function RewriteLine(m: Marker, open: string, close: string, line: string): string
  {
    match MarkerRest(m, line)
    case Some(rest) => open + rest + close
    case None => line
  }

  predicate ProperMarker(m: Marker)
  {
    m.Prefix? ==> m.text != []
  }

  /** Inside a line, where `^` does not hold, a line-anchored rule copies. */
  lemma {:induction false} MidLineCopy(r: Rule, u: string, tail: string)
    requires r.Line? && NoLineTerminator(u)
    ensures ReplaceAll(r, u + tail, false) == u + ReplaceAll(r, tail, false)
    decreases |u|
  {
    if u != [] {
      var s := u + tail;
      assert s[0] == u[0] && s[1..] == u[1..] + tail;
      assert !IsLineTerminator(u[0]);
      assert MatchAt(r, s, false).None?;
      assert ReplaceAll(r, s, false) == [u[0]] + ReplaceAll(r, u[1..] + tail, false);
      MidLineCopy(r, u[1..], tail);
      assert [u[0]] + u[1..] == u;
    } else {
      assert u + tail == tail;
    }
  }

  lemma {:induction false} LineEndOf(line: string, tail: string)
    requires NoLineTerminator(line)
    requires tail == [] || IsLineTerminator(tail[0])
    ensures LineEnd(line + tail) == |line|
    decreases |line|
  {
    if line == [] {
      assert line + tail == tail;
    } else {
      assert (line + tail)[1..] == line[1..] + tail;
      LineEndOf(line[1..], tail);
    }
  }

  /** A line-anchored rule rewrites the line in front of `tail` (which is
      empty or begins with a line terminator) and then goes on with `tail`. */
  lemma LineThen(m: Marker, open: string, close: string, line: string, tail: string)
    requires ProperMarker(m) && NoLineTerminator(line)
    requires tail == [] || IsLineTerminator(tail[0])
    ensures ReplaceAll(Line(m, open, close), line + tail, true)
         == RewriteLine(m, open, close, line) + ReplaceAll(Line(m, open, close), tail, false)
  {
    var r := Line(m, open, close);
    var s := line + tail;
    if s != [] {
      LineEndOf(line, tail);
      match MarkerRest(m, line)
      case Some(rest) =>
        LineHit(m, open, close, line, tail, rest);
        ReplaceHit(r, s, true, Hit(|line|, open + rest + close));
        LineParts(line, tail);
      case None =>
        LineMiss(m, open, close, line, tail);
        if line == [] {
          assert s == tail;
          ReplaceMiss(r, s, true);
          ReplaceMiss(r, s, false);
        } else {
          ReplaceMiss(r, s, true);
          assert s[1..] == line[1..] + tail;
          MidLineCopy(r, line[1..], tail);
          ConsAppend(line, ReplaceAll(r, tail, false));
        }
    }
  }

  lemma LineParts(line: string, tail: string)
    requires line != [] && NoLineTerminator(line)
    ensures (line + tail)[|line|..] == tail && !IsLineTerminator((line + tail)[|line| - 1])
  {
    assert (line + tail)[|line| - 1] == line[|line| - 1];
  }

  /** A line that begins with the marker is matched whole. */
  lemma LineHit(m: Marker, open: string, close: string, line: string, tail: string, rest: string)
    requires ProperMarker(m) && LineEnd(line + tail) == |line|
    requires MarkerRest(m, line) == Some(rest)
    ensures MatchAt(Line(m, open, close), line + tail, true) == Some(Hit(|line|, open + rest + close))
  {
    assert (line + tail)[..|line|] == line;
  }

  /** A line that does not begin with the marker is not matched. */
  lemma LineMiss(m: Marker, open: string, close: string, line: string, tail: string)
    requires LineEnd(line + tail) == |line| && MarkerRest(m, line).None?
    ensures MatchAt(Line(m, open, close), line + tail, true).None?
  {
    assert (line + tail)[..|line|] == line;
  }

  /** One step of the scan where a match begins. */
  lemma ReplaceHit(r: Rule, s: string, atLineStart: bool, h: Hit)
    requires MatchAt(r, s, atLineStart) == Some(h)
    ensures 0 < h.len <= |s|
    ensures ReplaceAll(r, s, atLineStart) == h.out + ReplaceAll(r, s[h.len..], IsLineTerminator(s[h.len - 1]))
  {
  }

  /** One step of the scan where no match begins. */
  lemma ReplaceMiss(r: Rule, s: string, atLineStart: bool)
    requires s != [] && MatchAt(r, s, atLineStart).None?
    ensures ReplaceAll(r, s, atLineStart) == [s[0]] + ReplaceAll(r, s[1..], IsLineTerminator(s[0]))
  {
  }

  /** The first line of a text is rewritten on its own, then the text after
      its terminator is treated as starting a new line. */
  lemma LineStep(m: Marker, open: string, close: string, line: string, t: char, rest: string)
    requires ProperMarker(m) && NoLineTerminator(line) && IsLineTerminator(t)
    ensures ReplaceAll(Line(m, open, close), line + [t] + rest, true)
         == RewriteLine(m, open, close, line) + [t] + ReplaceAll(Line(m, open, close), rest, true)
  {
    assert line + [t] + rest == line + ([t] + rest);
    LineThen(m, open, close, line, [t] + rest);
    assert ([t] + rest)[1..] == rest;
  }

  /** The last line of a text (one without a terminator) is rewritten on its own. */
  lemma LastLine(m: Marker, open: string, close: string, line: string)
    requires ProperMarker(m) && NoLineTerminator(line)
    ensures ReplaceAll(Line(m, open, close), line, true) == RewriteLine(m, open, close, line)
  {
    assert line + [] == line;
    LineThen(m, open, close, line, []);
  }

  // ---------------------------------------------------------------------
  // Delimited spans, code fences, literal replacements, unwrapping.

  /** `D x D`, with `x` non-empty and free of the delimiter's first
      character, becomes `open x close`. */
  lemma SpanHit(d: string, open: string, close: string, x: string, rest: string)
    requires d != [] && x != [] && d[0] !in x
    ensures Replace(Span(d, open, close), d + x + d + rest)
         == open + x + close + Replace(Span(d, open, close), rest)
  {
    var r := Span(d, open, close);
    var s := d + x + d + rest;
    var n := |d| + |x| + |d|;
    SpanHitMatch(d, open, close, x, rest);
    assert s[n..] == rest;
    assert ReplaceAll(r, s, true) == open + x + close + ReplaceAll(r, rest, IsLineTerminator(s[n - 1]));
    LineStartIrrelevant(r, rest);
  }

  lemma SpanHitMatch(d: string, open: string, close: string, x: string, rest: string)
    requires d != [] && x != [] && d[0] !in x
    ensures MatchAt(Span(d, open, close), d + x + d + rest, true)
         == Some(Hit(|d| + |x| + |d|, open + x + close))
  {
    var s := d + x + d + rest;
    var q := |d| + |x|;
    SpanClose(d, x, rest);
    assert d <= s;
    assert s[q..] == d + rest;
    assert s[|d|..q] == x;
    assert SpanAt(d, open, close, s) == Some(Hit(q + |d|, open + x + close));
  }

  /** The closing delimiter is the first copy of its first character after `x`. */
  lemma SpanClose(d: string, x: string, rest: string)
    requires d != [] && d[0] !in x
    ensures IndexOf(d + x + d + rest, [d[0]], |d|) == Some(|d| + |x|)
  {
    var s := d + x + d + rest;
    var q := |d| + |x|;
    assert OccursAt(s, [d[0]], q) by {
      assert s[q..q + 1] == [d[0]];
    }
    forall k | |d| <= k < q ensures !OccursAt(s, [d[0]], k) {
      assert s[k] == x[k - |d|];
      assert s[k..k + 1] == [s[k]];
    }
    IndexOfIs(s, [d[0]], |d|, q);
  }

  /** The lazy body `[\s\S]*?` of a fence ends at the first "```": no
      closing fence starts inside `body`. */
  predicate ClosedAtEnd(body: string)
  {
    forall i: nat :: i < |body| ==> !OccursAt(body + "```", "```", i)
  }

  /** Every match of a span rule is the delimiter, a non-empty run free of
      the delimiter's first character, and the delimiter again; the run
      is what goes between `open` and `close`. */
  lemma SpanSound(d: string, open: string, close: string, s: string)
    requires SpanAt(d, open, close, s).Some?
    ensures 2 * |d| < SpanAt(d, open, close, s).value.len <= |s|
    ensures var h := SpanAt(d, open, close, s).value;
            var x := s[|d|..h.len - |d|];
            && s[..|d|] == d && s[h.len - |d|..h.len] == d
            && x != [] && d[0] !in x
            && h.out == open + x + close
  {
    var q := IndexOf(s, [d[0]], |d|).value;
    var x := s[|d|..q];
    assert s[q..][..|d|] == s[q..q + |d|];
    forall k | |d| <= k < q ensures s[k] != d[0] {
      assert !OccursAt(s, [d[0]], k);
      assert s[k..k + 1] == [s[k]];
    }
    assert forall c <- x :: c != d[0];
  }

  /** Every fence match is the opening fence, a `\w` tag, a newline, a
      body in which no closing fence starts, and the closing fence; the
      body is what goes into the `pre`/`code` block. */
  lemma FenceSound(s: string)
    requires FenceAt(s).Some?
    ensures "```" <= s
    ensures var w := 3 + WordRun(s[3..]);
            && w < |s| && s[w] == '\n' && w + 4 <= FenceAt(s).value.len
            && (forall i :: 3 <= i < w ==> IsWordChar(s[i]))
    ensures var w := 3 + WordRun(s[3..]);
            var h := FenceAt(s).value;
            var body := s[w + 1..h.len - 3];
            && s[h.len - 3..h.len] == "```" && ClosedAtEnd(body)
            && h.out == "<pre><code>" + body + "</code></pre>"
  {
    var w := 3 + WordRun(s[3..]);
    var k := IndexOf(s, "```", w + 1).value;
    var body := s[w + 1..k];
    forall i | 3 <= i < w ensures IsWordChar(s[i]) {
      assert s[3..][i - 3] == s[i];
    }
    ClosedBefore(s, w + 1, k);
  }

  /** The text between `from` and the first fence at or after it holds no
      closing fence. */
  lemma ClosedBefore(s: string, from: nat, k: nat)
    requires from <= k && OccursAt(s, "```", k)
    requires forall j :: from <= j < k ==> !OccursAt(s, "```", j)
    ensures ClosedAtEnd(s[from..k])
  {
    var body := s[from..k];
    assert body + "```" == s[from..k + 3];
    forall i: nat | i < |body| ensures !OccursAt(body + "```", "```", i) {
      assert !OccursAt(s, "```", from + i);
      SliceOfSlice(s, from, k + 3, i, i + 3);
    }
  }

  /** A fenced block whose opening fence carries a language tag of `\w`
      characters becomes a `pre`/`code` block holding the body verbatim. */
  lemma FenceHit(lang: string, body: string, rest: string)
    requires forall i :: 0 <= i < |lang| ==> IsWordChar(lang[i])
    requires ClosedAtEnd(body)
    ensures Replace(Fence, "```" + lang + "\n" + body + "```" + rest)
         == "<pre><code>" + body + "</code></pre>" + Replace(Fence, rest)
  {
    var s := "```" + lang + "\n" + body + "```" + rest;
    var n := |lang| + |body| + 7;
    FenceHitMatch(lang, body, rest);
    assert MatchAt(Fence, s, true) == FenceAt(s);
    assert s[n..] == rest;
    assert ReplaceAll(Fence, s, true)
        == "<pre><code>" + body + "</code></pre>" + ReplaceAll(Fence, rest, IsLineTerminator(s[n - 1]));
    LineStartIrrelevant(Fence, rest);
  }

  lemma FenceHitMatch(lang: string, body: string, rest: string)
    requires forall i :: 0 <= i < |lang| ==> IsWordChar(lang[i])
    requires ClosedAtEnd(body)
    ensures FenceAt("```" + lang + "\n" + body + "```" + rest)
         == Some(Hit(|lang| + |body| + 7, "<pre><code>" + body + "</code></pre>"))
  {
    FenceOpen(lang, body, rest);
    FenceBodyAt(lang, body, rest);
  }

  /** The opening fence and its tag end where the newline is. */
  lemma FenceOpen(lang: string, body: string, rest: string)
    requires forall i :: 0 <= i < |lang| ==> IsWordChar(lang[i])
    ensures var s := "```" + lang + "\n" + body + "```" + rest;
            && 3 + |lang| < |s| && FenceAt(s) == FenceBody(s, 3 + |lang|)
  {
    var t := "\n" + body + "```" + rest;
    var s := "```" + lang + "\n" + body + "```" + rest;
    FenceText(lang, body, rest);
    assert s[3..] == lang + t;
    WordRunOf(lang, t);
    FenceAtTag(s);
  }

  lemma FenceText(lang: string, body: string, rest: string)
    ensures "```" + lang + "\n" + body + "```" + rest == "```" + (lang + ("\n" + body + "```" + rest))
  {
  }

  /** The body runs up to the closing fence. */
  lemma FenceBodyAt(lang: string, body: string, rest: string)
    requires ClosedAtEnd(body)
    ensures var s := "```" + lang + "\n" + body + "```" + rest;
            && 3 + |lang| < |s|
            && FenceBody(s, 3 + |lang|) == Some(Hit(|lang| + |body| + 7, "<pre><code>" + body + "</code></pre>"))
  {
    var s := "```" + lang + "\n" + body + "```" + rest;
    var p := "```" + lang + "\n";
    assert s == p + body + ("```" + rest);
    assert s[|p|..|p| + |body| + 3] == body + "```";
    FenceClose(s, |p|, body);
    FenceBodyIs(s, 3 + |lang|, |p| + |body|, body);
  }

  lemma FenceAtTag(s: string)
    requires "```" <= s
    ensures FenceAt(s) == FenceBody(s, 3 + WordRun(s[3..]))
  {
  }

  lemma FenceBodyIs(s: string, w: nat, k: nat, body: string)
    requires 3 <= w < |s| && s[w] == '\n'
    requires IndexOf(s, "```", w + 1) == Some(k)
    requires w + 1 <= k <= |s| && s[w + 1..k] == body
    ensures FenceBody(s, w) == Some(Hit(k + 3, "<pre><code>" + body + "</code></pre>"))
  {
  }

  lemma SliceOfSlice(s: string, a: nat, b: nat, i: nat, j: nat)
    requires a <= b <= |s| && i <= j <= b - a
    ensures s[a..b][i..j] == s[a + i..a + j]
  {
    assert forall k :: 0 <= k < j - i ==> s[a..b][i..j][k] == s[a + i + k];
  }

  /** The closing fence is the first one after the body. */
  lemma FenceClose(s: string, from: nat, body: string)
    requires ClosedAtEnd(body) && from + |body| + 3 <= |s|
    requires s[from..from + |body| + 3] == body + "```"
    ensures IndexOf(s, "```", from) == Some(from + |body|)
  {
    var k := from + |body|;
    var w := body + "```";
    forall j | from <= j < k ensures !OccursAt(s, "```", j) {
      var i := j - from;
      assert !OccursAt(w, "```", i);
      SliceOfSlice(s, from, from + |w|, i, i + 3);
    }
    assert s[k..k + 3] == w[|body|..];
    IndexOfIs(s, "```", from, k);
  }

  /** A body without backquotes holds no closing fence. */
  lemma NoBackquoteClosed(body: string)
    requires '`' !in body
    ensures ClosedAtEnd(body)
  {
    forall i: nat | i < |body| ensures !OccursAt(body + "```", "```", i) {
      assert (body + "```")[i] == body[i] && body[i] in body;
    }
  }

  lemma {:induction false} WordRunOf(w: string, tail: string)
    requires forall i :: 0 <= i < |w| ==> IsWordChar(w[i])
    requires tail != [] && !IsWordChar(tail[0])
    ensures WordRun(w + tail) == |w|
    decreases |w|
  {
    if w != [] {
      assert (w + tail)[1..] == w[1..] + tail;
      WordRunOf(w[1..], tail);
    } else {
      assert w + tail == tail;
    }
  }

  /** Where `lead tag trail` occurs, an unwrapping rule keeps only the tag. */
  lemma UnwrapHit(lead: string, tag: seq<Sym>, trail: string, t: string, rest: string)
    requires |lead| + |tag| + |trail| > 0
    requires |t| == |tag| && PatternAt(tag, t)
    ensures Replace(Unwrap(lead, tag, trail), lead + t + trail + rest)
         == t + Replace(Unwrap(lead, tag, trail), rest)
  {
    var r := Unwrap(lead, tag, trail);
    var s := lead + t + trail + rest;
    var n := |lead| + |tag| + |trail|;
    UnwrapMatch(lead, tag, trail, t, rest);
    assert s[n..] == rest;
    assert ReplaceAll(r, s, true) == t + ReplaceAll(r, rest, IsLineTerminator(s[n - 1]));
    LineStartIrrelevant(r, rest);
  }

  lemma UnwrapMatch(lead: string, tag: seq<Sym>, trail: string, t: string, rest: string)
    requires |lead| + |tag| + |trail| > 0
    requires |t| == |tag| && PatternAt(tag, t)
    ensures MatchAt(Unwrap(lead, tag, trail), lead + t + trail + rest, true)
         == Some(Hit(|lead| + |tag| + |trail|, t))
  {
    var s := lead + t + trail + rest;
    assert s[|lead|..] == t + trail + rest;
    assert PatternAt(tag, s[|lead|..]);
    assert s[|lead| + |tag|..] == trail + rest;
    assert s[|lead|..|lead| + |tag|] == t;
  }

  /** An unwrapping rule does not match where its leading text is absent. */
  lemma UnwrapMissLead(lead: string, tag: seq<Sym>, trail: string, s: string, ls: bool, j: nat)
    requires j < |lead| && j < |s| && s[j] != lead[j]
    ensures MatchAt(Unwrap(lead, tag, trail), s, ls).None?
  {
  }

  /** An unwrapping rule does not match where its tag pattern fails. */
  lemma UnwrapMissTag(lead: string, tag: seq<Sym>, trail: string, s: string, ls: bool, j: nat)
    requires j < |tag| && |lead| + j < |s| && !SymMatches(tag[j], s[|lead| + j])
    ensures MatchAt(Unwrap(lead, tag, trail), s, ls).None?
  {
    if |lead| + |tag| + |trail| > 0 && lead <= s {
      assert s[|lead|..][j] == s[|lead| + j];
    }
  }

  /** An unwrapping rule does not match where the text after its tag differs. */
  lemma UnwrapMissTrail(lead: string, tag: seq<Sym>, trail: string, s: string, ls: bool, j: nat)
    requires j < |trail| && |lead| + |tag| + j < |s| && s[|lead| + |tag| + j] != trail[j]
    ensures MatchAt(Unwrap(lead, tag, trail), s, ls).None?
  {
    assert s[|lead| + |tag|..][j] == s[|lead| + |tag| + j];
  }

  /** A text in which the pattern matches at no position is left as it is. */
  lemma {:induction false} NoMatchUnchanged(r: Rule, s: string, atLineStart: bool)
    requires !r.Line?
    requires forall k :: 0 <= k < |s| ==> MatchAt(r, s[k..], true).None?
    ensures ReplaceAll(r, s, atLineStart) == s
    decreases |s|
  {
    if s != [] {
      assert s[0..] == s;
      MatchAnywhere(r, s, atLineStart);
      ReplaceMiss(r, s, atLineStart);
      forall k | 0 <= k < |s| - 1 ensures MatchAt(r, s[1..][k..], true).None? {
        assert s[1..][k..] == s[k + 1..];
      }
      NoMatchUnchanged(r, s[1..], IsLineTerminator(s[0]));
      assert [s[0]] + s[1..] == s;
    }
  }

  /** Whether a match begins at some position does not depend on `^`,
      except for line-anchored rules. */
  lemma MatchAnywhere(r: Rule, s: string, ls: bool)
    requires !r.Line?
    ensures MatchAt(r, s, ls) == MatchAt(r, s, true)
  {
  }
}
