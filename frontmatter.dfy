/** The `---` frontmatter block of a blog post: the anchored regular
    expression that splits it off the document and the line-by-line parser
    that turns it into a key/value map. */
module Frontmatter {
  import opened Wrappers
  import opened JsText

  /** The two capture groups of `^---\n([\s\S]*?)\n---\n([\s\S]*)$`. */
  datatype Sections = Sections(front: string, body: string)

  const Opening: string := "---\n"
  const Closing: string := "\n---\n"

  /** `markdown.match(/^---\n([\s\S]*?)\n---\n([\s\S]*)$/)`: the document
      must start with `---\n`; the lazy group stops at the FIRST `\n---\n`
      that starts at or after index 4, and the body is everything after it. */
  function SplitFrontmatter(doc: string): (r: Option<Sections>)
    ensures r.None? <==> !(Opening <= doc) || forall j: nat :: 4 <= j ==> !OccursAt(doc, Closing, j)
    ensures r.Some? ==> doc == Opening + r.value.front + Closing + r.value.body
    ensures r.Some? ==> forall j :: 4 <= j < 4 + |r.value.front| ==> !OccursAt(doc, Closing, j)
  {
    if !(Opening <= doc) then None
    else
      match IndexOf(doc, Closing, 4)
      case None => None
      case Some(j) =>
        var r := Sections(doc[4..j], doc[j + 5..]);
        assert doc[..4] == Opening;
        assert doc[j..j + 5] == Closing;
        assert doc == doc[..4] + doc[4..j] + doc[j..j + 5] + doc[j + 5..];
        Some(r)
  }

  /** Joining a block that holds no closing delimiter with any body splits
      back into the same block and body. */
  lemma SplitAssembled(front: string, body: string)
    requires forall i: nat :: !OccursAt(front + "\n---", Closing, i)
    ensures SplitFrontmatter(Opening + front + Closing + body) == Some(Sections(front, body))
  {
    var doc := Opening + front + Closing + body;
    assert Opening <= doc;
    assert OccursAt(doc, Closing, 4 + |front|) by {
      assert doc[4 + |front|..4 + |front| + 5] == Closing;
    }
    forall j | 4 <= j < 4 + |front| ensures !OccursAt(doc, Closing, j) {
      var w := front + "\n---";
      assert doc[4..4 + |w|] == w;
      assert !OccursAt(w, Closing, j - 4);
      if j + 5 <= 4 + |w| {
        assert doc[j..j + 5] == w[j - 4..j + 1];
      }
    }
    IndexOfIs(doc, Closing, 4, 4 + |front|);
    assert doc[4..4 + |front|] == front;
    assert doc[4 + |front| + 5..] == body;
  }

  /** One `key: value` entry of the block. */
  datatype Field = Field(key: string, value: string)

  /** `line.match(/^(\w+):\s*"?([^"]*)"?$/)` followed by the no-op
      `value.replace(/^"|"$/g, '')`. The key is the maximal run of `\w`
      characters and must be followed by `:`; after the maximal run of `\s`
      comes an optional quote, a quote-free value, an optional quote and
      the end of the line (backtracking cannot find any other split, since
      spaces taken back by `\s*` would land in the quote-free value). */
  function FieldOf(line: string): (r: Option<Field>)
    ensures r.Some? ==> '"' !in r.value.value
  {
    match KeyEnd(line)
    case None => None
    case Some(k) => FieldAfter(line[..k], TrimStart(line[k + 1..]))
  }

  /** `^(\w+):` — the length of the key, when the line starts with a
      non-empty run of `\w` followed by `:`. */
  function KeyEnd(line: string): (r: Option<nat>)
    ensures r.Some? ==> 0 < r.value < |line| && line[r.value] == ':'
    ensures r.Some? ==> forall i :: 0 <= i < r.value ==> IsWordChar(line[i])
    ensures r.None? ==> WordRun(line) == 0 || WordRun(line) == |line| || line[WordRun(line)] != ':'
  {
    var k := WordRun(line);
    if k == 0 || k == |line| || line[k] != ':' then None else Some(k)
  }

  /** The entry for `key` once the text after `:` has lost its leading
      `\s` run, if that text has the shape of a value. */
  function FieldAfter(key: string, t: string): (r: Option<Field>)
    ensures r.Some? ==> r.value.key == key && '"' !in r.value.value
  {
    match Unquote(t)
    case None => None
    case Some(v) => Some(Field(key, v))
  }

  /** A recognised key is a non-empty run of `\w` characters at the start
      of the line, directly followed by `:`. */
  lemma FieldOfKey(line: string)
    requires FieldOf(line).Some?
    ensures var key := FieldOf(line).value.key;
            && 0 < |key| < |line| && line[..|key|] == key && line[|key|] == ':'
            && forall i :: 0 <= i < |key| ==> IsWordChar(key[i])
  {
    var k := KeyEnd(line).value;
    assert FieldOf(line).value.key == line[..k];
  }

  /** The tail `"?([^"]*)"?$` of the line pattern, once `\s*` has taken its
      maximal run: one optional leading and one optional trailing quote are
      dropped, and what remains must be free of quotes. */
  function Unquote(t: string): (r: Option<string>)
    ensures r.Some? ==> '"' !in r.value
  {
    var v := DropLastQuote(DropFirstQuote(t));
    if '"' in v then None else Some(v)
  }

  /** `"?` at the start of the tail. */
  function DropFirstQuote(t: string): string
  {
    if t != [] && t[0] == '"' then t[1..] else t
  }

  /** `"?$` at the end of the tail. */
  function DropLastQuote(u: string): string
  {
    if u != [] && u[|u| - 1] == '"' then u[..|u| - 1] else u
  }

  /** `q` is an optional quote: nothing or one `"`. */
  predicate OptionalQuote(q: string)
  {
    q == [] || q == "\""
  }

  /** The tail of the pattern accepts a quote-free value between optional
      quotes, and gives that value back. */
  lemma UnquoteShape(open: string, value: string, close: string)
    requires OptionalQuote(open) && OptionalQuote(close) && '"' !in value
    ensures Unquote(open + value + close) == Some(value)
  {
    if value == [] {
      assert open + value + close == open + close;
    } else {
      assert open + value + close == open + (value + close);
      assert value[0] in value && value[|value| - 1] in value;
      DropOpen(open, value + close);
      DropClose(value, close);
    }
  }

  /** Conversely, an accepted tail is its value between optional quotes. */
  lemma UnquoteSound(t: string)
    requires Unquote(t).Some?
    ensures exists open, close :: OptionalQuote(open) && OptionalQuote(close)
                               && t == open + Unquote(t).value + close
  {
    UnquoteParts(t);
  }

  /** The optional quotes `Unquote` removes, in place around its value. */
  lemma UnquoteParts(t: string)
    requires Unquote(t).Some?
    ensures var u := DropFirstQuote(t);
            && OptionalQuote(t[..|t| - |u|]) && OptionalQuote(u[|Unquote(t).value|..])
            && t == t[..|t| - |u|] + Unquote(t).value + u[|Unquote(t).value|..]
  {
    var u := DropFirstQuote(t);
    var v := Unquote(t).value;
    if t != [] && t[0] == '"' {
      assert t[..1] == "\"";
    }
    assert t == t[..|t| - |u|] + u;
    if u != [] && u[|u| - 1] == '"' {
      assert u[|u| - 1..] == "\"";
    }
    assert u == v + u[|v|..];
  }

  lemma DropOpen(open: string, w: string)
    requires OptionalQuote(open) && w != [] && w[0] != '"'
    ensures DropFirstQuote(open + w) == w
  {
    if open == [] {
      assert open + w == w;
    }
  }

  lemma DropClose(w: string, close: string)
    requires OptionalQuote(close) && w != [] && w[|w| - 1] != '"'
    ensures DropLastQuote(w + close) == w
  {
    if close == [] {
      assert w + close == w;
    }
  }

  /** Every line of the shape `key:` + spaces + optional quote + quote-free
      value + optional quote is recognised, with that key and value (a
      value starting with a space only when it is quoted, since otherwise
      `\s*` takes that space). */
  lemma FieldOfShape(key: string, spaces: string, open: string, value: string, close: string)
    requires key != [] && forall i :: 0 <= i < |key| ==> IsWordChar(key[i])
    requires AllSpace(spaces) && OptionalQuote(open) && OptionalQuote(close)
    requires '"' !in value
    requires open == "\"" || value == [] || !IsSpace(value[0])
    ensures FieldOf(key + ":" + spaces + open + value + close) == Some(Field(key, value))
  {
    var t := open + value + close;
    assert key + ":" + spaces + open + value + close == key + ([':'] + (spaces + t));
    assert t == [] || !IsSpace(t[0]) by {
      if open == [] && value == [] && close != [] {
        assert t == "\"";
      }
    }
    TrimStartSpaces(spaces, t);
    UnquoteShape(open, value, close);
    FieldOfParts(key, spaces + t);
  }

  /** `line` is the key of `f`, `:`, a run of `\s` that the value does not
      continue, an optional quote, the value of `f` and an optional quote. */
  predicate FieldLine(line: string, f: Field, spaces: string, open: string, close: string)
  {
    && AllSpace(spaces) && OptionalQuote(open) && OptionalQuote(close)
    && (open == "\"" || f.value == [] || !IsSpace(f.value[0]))
    && line == f.key + ":" + spaces + open + f.value + close
  }

  /** Conversely, every recognised line has that shape. */
  lemma FieldOfSound(line: string)
    requires FieldOf(line).Some?
    ensures exists spaces, open, close :: FieldLine(line, FieldOf(line).value, spaces, open, close)
  {
    var spaces, open, close := FieldOfPieces(line);
    FieldLineWitness(line, FieldOf(line).value, spaces, open, close);
  }

  lemma FieldLineWitness(line: string, f: Field, spaces: string, open: string, close: string)
    requires FieldLine(line, f, spaces, open, close)
    ensures exists spaces, open, close :: FieldLine(line, f, spaces, open, close)
  {
  }

  /** The `\s` run and the quotes of a recognised line. */
  lemma FieldOfPieces(line: string) returns (spaces: string, open: string, close: string)
    requires FieldOf(line).Some?
    ensures FieldLine(line, FieldOf(line).value, spaces, open, close)
  {
    var k := FieldOfIs(line);
    var f := FieldOf(line).value;
    var rest := line[k + 1..];
    var t := TrimStart(rest);
    spaces := rest[..|rest| - |t|];
    KeyColon(line, k);
    TrimStartSplit(rest);
    var u := DropFirstQuote(t);
    UnquoteParts(t);
    open, close := t[..|t| - |u|], u[|f.value|..];
    FieldChain(line, f, rest, spaces, t, open, close);
  }

  /** How `FieldOf` reads a line it recognises: the key before the
      first `:`, the value from the trimmed text after it. */
  lemma FieldOfIs(line: string) returns (k: nat)
    requires FieldOf(line).Some?
    ensures KeyEnd(line) == Some(k) && k < |line|
    ensures FieldOf(line).value.key == line[..k]
    ensures Unquote(TrimStart(line[k + 1..])) == Some(FieldOf(line).value.value)
  {
    k := KeyEnd(line).value;
  }

  lemma KeyColon(line: string, k: nat)
    requires k < |line| && line[k] == ':'
    ensures line == line[..k] + ":" + line[k + 1..]
  {
    assert line == line[..k] + [line[k]] + line[k + 1..];
  }

  lemma TrimStartSplit(rest: string)
    ensures rest == rest[..|rest| - |TrimStart(rest)|] + TrimStart(rest)
  {
  }

  /** Putting the pieces of a recognised line back together. */
  lemma FieldChain(line: string, f: Field, rest: string, spaces: string, t: string,
                   open: string, close: string)
    requires line == f.key + ":" + rest && rest == spaces + t
    requires t == open + f.value + close
    requires AllSpace(spaces) && OptionalQuote(open) && OptionalQuote(close)
    requires t == [] || !IsSpace(t[0])
    ensures FieldLine(line, f, spaces, open, close)
  {
    if open == [] && f.value != [] {
      assert t[0] == f.value[0];
    }
    assert line == f.key + ":" + spaces + open + f.value + close;
  }

  /** A line made of a key, `:` and a rest is read by trimming the rest and
      removing its optional quotes. */
  lemma FieldOfParts(key: string, rest: string)
    requires key != [] && forall i :: 0 <= i < |key| ==> IsWordChar(key[i])
    ensures FieldOf(key + ([':'] + rest)) == FieldAfter(key, TrimStart(rest))
  {
    var line := key + ([':'] + rest);
    KeyEndOfParts(key, rest);
    var k := |key|;
    assert line[k + 1..] == rest;
    assert line[..k] == key;
  }

  lemma KeyEndOfParts(key: string, rest: string)
    requires key != [] && forall i :: 0 <= i < |key| ==> IsWordChar(key[i])
    ensures KeyEnd(key + ([':'] + rest)) == Some(|key|)
  {
    WordRunStops(key, [':'] + rest);
    assert (key + ([':'] + rest))[|key|] == ':';
  }

  lemma {:induction false} WordRunStops(w: string, rest: string)
    requires forall i :: 0 <= i < |w| ==> IsWordChar(w[i])
    requires rest != [] && !IsWordChar(rest[0])
    ensures WordRun(w + rest) == |w|
    decreases |w|
  {
    if w == [] {
      assert w + rest == rest;
    } else {
      assert (w + rest)[1..] == w[1..] + rest;
      WordRunStops(w[1..], rest);
    }
  }

  lemma {:induction false} TrimStartSpaces(spaces: string, t: string)
    requires AllSpace(spaces)
    requires t == [] || !IsSpace(t[0])
    ensures TrimStart(spaces + t) == t
    decreases |spaces|
  {
    if spaces == [] {
      assert spaces + t == t;
    } else {
      assert (spaces + t)[1..] == spaces[1..] + t;
      TrimStartSpaces(spaces[1..], t);
    }
  }

  /** The key JavaScript refuses to store as an own property: assigning a
      string to `__proto__` of a plain object is silently ignored. */
  const ProtoKey: string := "__proto__"

  /** What each line of the block contributes: its entry, or `None` when
      it does not match the line pattern. */
  function Parsed(lines: seq<string>): (rs: seq<Option<Field>>)
    ensures |rs| == |lines|
    ensures forall i :: 0 <= i < |lines| ==> rs[i] == FieldOf(lines[i])
  {
    seq(|lines|, i requires 0 <= i < |lines| => FieldOf(lines[i]))
  }

  /** The object built by storing the entries `rs` one after the other. */
  function Collect(rs: seq<Option<Field>>): map<string, string>
  {
    if rs == [] then map[] else Store(Collect(rs[..|rs| - 1]), rs[|rs| - 1])
  }

  /** The object `parseFrontmatter` has built after reading `lines`, in order. */
  function FieldsOf(lines: seq<string>): (fm: map<string, string>)
    ensures forall k <- fm :: k != ProtoKey && '"' !in fm[k]
  {
    CollectClean(Parsed(lines));
    Collect(Parsed(lines))
  }

  /** `frontmatter[key] = value` for a matching line; nothing otherwise. */
  function Store(fm: map<string, string>, r: Option<Field>): map<string, string>
  {
    match r
    case Some(f) => if f.key != ProtoKey then fm[f.key := f.value] else fm
    case None => fm
  }

  /** Storing a line that does not set `key` leaves `key` as it was. */
  lemma StoreOther(fm: map<string, string>, r: Option<Field>, key: string)
    requires r.None? || r.value.key != key
    ensures key in Store(fm, r) <==> key in fm
    ensures key in fm ==> Store(fm, r)[key] == fm[key]
  {
  }

  /** Entries without quotes in their values give an object without
      quotes in its values and without `__proto__`. */
  lemma {:induction false} CollectClean(rs: seq<Option<Field>>)
    requires forall i :: 0 <= i < |rs| && rs[i].Some? ==> '"' !in rs[i].value.value
    ensures forall k <- Collect(rs) :: k != ProtoKey && '"' !in Collect(rs)[k]
  {
    if rs != [] {
      CollectClean(rs[..|rs| - 1]);
    }
  }

  /** Entry `i` of `rs` sets `key`. */
  predicate Sets(rs: seq<Option<Field>>, i: int, key: string)
    requires 0 <= i < |rs|
  {
    rs[i].Some? && rs[i].value.key == key
  }

  /** A key is present exactly when some entry sets it (and it is not `__proto__`). */
  lemma {:induction false} CollectKeys(rs: seq<Option<Field>>, key: string)
    ensures key in Collect(rs) <==> key != ProtoKey && exists i :: 0 <= i < |rs| && Sets(rs, i, key)
  {
    if rs != [] {
      var init := rs[..|rs| - 1];
      CollectKeys(init, key);
      if key in Collect(rs) && key !in Collect(init) {
        assert Sets(rs, |rs| - 1, key);
      }
      if key != ProtoKey && (exists i :: 0 <= i < |rs| && Sets(rs, i, key)) {
        var i :| 0 <= i < |rs| && Sets(rs, i, key);
        if i < |rs| - 1 {
          assert Sets(init, i, key);
        } else {
          assert key in Collect(rs);
        }
      }
      forall i | 0 <= i < |init| && Sets(init, i, key) ensures Sets(rs, i, key) {
      }
    }
  }

  /** A key is in the object exactly when some line of the block sets it. */
  lemma FieldsOfKeys(lines: seq<string>, key: string)
    ensures key in FieldsOf(lines) <==> key != ProtoKey && exists i :: 0 <= i < |lines| && Sets(Parsed(lines), i, key)
  {
    CollectKeys(Parsed(lines), key);
  }

  /** A repeated key keeps the value of the LAST entry that sets it. */
  lemma {:induction false} CollectLastWins(rs: seq<Option<Field>>, i: int)
    requires 0 <= i < |rs| && rs[i].Some? && rs[i].value.key != ProtoKey
    requires forall j :: i < j < |rs| ==> !Sets(rs, j, rs[i].value.key)
    ensures rs[i].value.key in Collect(rs)
    ensures Collect(rs)[rs[i].value.key] == rs[i].value.value
  {
    var f := rs[i].value;
    var init := rs[..|rs| - 1];
    var last := rs[|rs| - 1];
    assert Collect(rs) == Store(Collect(init), last);
    if i < |rs| - 1 {
      assert init[i] == rs[i];
      forall j | i < j < |init| ensures !Sets(init, j, f.key) {
        assert !Sets(rs, j, f.key);
      }
      CollectLastWins(init, i);
      assert !Sets(rs, |rs| - 1, f.key);
      StoreOther(Collect(init), last, f.key);
    }
  }

  /** The line pattern's last match for a key decides its value. */
  lemma FieldsOfLastWins(lines: seq<string>, i: int)
    requires 0 <= i < |lines| && FieldOf(lines[i]).Some? && FieldOf(lines[i]).value.key != ProtoKey
    requires forall j :: i < j < |lines| ==> !Sets(Parsed(lines), j, FieldOf(lines[i]).value.key)
    ensures FieldOf(lines[i]).value.key in FieldsOf(lines)
    ensures FieldsOf(lines)[FieldOf(lines[i]).value.key] == FieldOf(lines[i]).value.value
  {
    CollectLastWins(Parsed(lines), i);
  }

  /** Lines that do not match the pattern contribute nothing. */
  lemma IgnoredLine(lines: seq<string>, line: string)
    requires FieldOf(line).None?
    ensures FieldsOf(lines + [line]) == FieldsOf(lines)
  {
    var rs := Parsed(lines + [line]);
    assert rs[..|lines|] == Parsed(lines);
  }

  /** The map `parseFrontmatter(text)` returns: the block is trimmed and
      split on `\n`, and each line is read in order. */
  function FrontmatterOf(text: string): (fm: map<string, string>)
    ensures forall k <- fm :: k != ProtoKey && '"' !in fm[k]
    ensures Trim(text) == [] ==> fm == map[]
  {
    BlankBlock(Trim(text));
    FieldsOf(Split(Trim(text), '\n'))
  }

  /** A blank block is one empty line, which sets nothing. */
  lemma BlankBlock(t: string)
    ensures t == [] ==> FieldsOf(Split(t, '\n')) == map[]
  {
    if t == [] {
      assert Split(t, '\n') == [[]];
      assert KeyEnd([]).None?;
      var rs := Parsed([[]]);
      assert rs == [None];
      assert Collect(rs) == Store(Collect(rs[..0]), None);
    }
  }

  /** `parseFrontmatter`: a loop over the lines of the trimmed block that
      fills the object one matching line at a time. */
  method ParseFrontmatter(text: string) returns (fm: map<string, string>)
    ensures fm == FrontmatterOf(text)
  {
    var lines := Split(Trim(text), '\n');
    ghost var rs := Parsed(lines);
    fm := map[];
    var i := 0;
    while i < |lines|
      invariant 0 <= i <= |lines|
      invariant fm == Collect(rs[..i])
    {
      var m := FieldOf(lines[i]);
      CollectStep(rs, i, fm, m);
      match m {
        case Some(f) =>
          if f.key != ProtoKey {
            fm := fm[f.key := f.value];
          }
        case None =>
      }
      i := i + 1;
    }
    assert rs[..|lines|] == rs;
  }

  /** Storing the entry of one more line. */
  lemma CollectStep(rs: seq<Option<Field>>, i: int, fm: map<string, string>, m: Option<Field>)
    requires 0 <= i < |rs| && fm == Collect(rs[..i]) && m == rs[i]
    ensures Collect(rs[..i + 1]) == Store(fm, m)
  {
    assert rs[..i + 1][..i] == rs[..i];
  }

  /** A block of one line that needs no trimming is read as that line alone. */
  lemma SingleLine(line: string)
    requires '\n' !in line
    requires line != [] && !IsSpace(line[0]) && !IsSpace(line[|line| - 1])
    ensures FrontmatterOf(line) == Store(map[], FieldOf(line))
  {
    assert TrimStart(line) == line;
    assert TrimEnd(line) == line;
    assert Trim(line) == line;
    assert Join([line], "\n") == line;
    SplitJoin([line], '\n');
    assert Split(Trim(line), '\n') == [line];
    assert [line][..0] == [];
    var rs := Parsed([line]);
    assert rs == [FieldOf(line)];
    assert rs[..0] == [];
    assert Collect(rs) == Store(Collect([]), FieldOf(line));
  }

  /** `title: "Hi"` yields `title` = `Hi`. */
  lemma QuotedTitle()
    ensures FrontmatterOf("title: \"Hi\"") == map["title" := "Hi"]
  {
    var line := "title: \"Hi\"";
    assert "title" + ":" == "title:";
    assert "title:" + " " == "title: ";
    assert "title: " + "\"" == "title: \"";
    assert "title: \"" + "Hi" == "title: \"Hi";
    assert "title: \"Hi" + "\"" == line;
    assert forall i :: 0 <= i < 5 ==> IsWordChar("title"[i]);
    assert AllSpace(" ");
    FieldOfShape("title", " ", "\"", "Hi", "\"");
    TitleLineIsOneLine();
    SingleLine(line);
  }

  lemma TitleLineIsOneLine()
    ensures '\n' !in "title: \"Hi\""
    ensures !IsSpace('t') && !IsSpace('"')
  {
    var line := "title: \"Hi\"";
    forall i | 0 <= i < |line| ensures line[i] != '\n' {
    }
  }
}
