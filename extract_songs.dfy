/** The song extractor (`extract_songs.py`): turns a parsed song document
    into a record of name, melody, composer, arranger and lyrics text. Any
    node it cannot handle is skipped, never fatal. */
module ExtractSongs {
  import opened Python
  import opened LatexTree

  // ---------------------------------------------------------------------
  // latex_str_to_str: one raw text token
  // ---------------------------------------------------------------------

  /** The characters of the leading class `[\s&]` of `latex_row_to_plain`. */
  predicate IsRowLead(c: char) {
    IsSpace(c) || c == '&'
  }

  predicate NoSpace(s: string) {
    forall i :: 0 <= i < |s| ==> !IsSpace(s[i])
  }

  /** The length of the longest prefix of `s` made of whitespace and `&`. */
  function RowLeadLength(s: string): (n: nat)
    ensures n <= |s| && forall i :: 0 <= i < n ==> IsRowLead(s[i])
    ensures n == |s| || !IsRowLead(s[n])
  {
    if s != [] && IsRowLead(s[0]) then
      var n := RowLeadLength(s[1..]);
      assert forall i :: 0 <= i < n ==> s[1..][i] == s[i + 1];
      n + 1
    else 0
  }

  /** `s` without its longest prefix of whitespace and `&`. */
  function DropRowLead(s: string): (r: string)
    ensures |r| <= |s| && r == s[|s| - |r|..]
    ensures forall i :: 0 <= i < |s| - |r| ==> IsRowLead(s[i])
    ensures r == [] || !IsRowLead(r[0])
  {
    s[RowLeadLength(s)..]
  }

  /** `s` up to (not including) its first newline. */
  function FirstLine(s: string): (r: string)
    ensures IsPrefix(r, s) && '\n' !in r
    ensures |r| == |s| || s[|r|] == '\n'
  {
    if s == [] || s[0] == '\n' then [] else [s[0]] + FirstLine(s[1..])
  }

  /** `s` without its trailing whitespace. */
  function RStripSpace(s: string): (r: string)
    ensures IsPrefix(r, s) && AllSpace(s[|r|..])
    ensures r == [] || !IsSpace(r[|r| - 1])
  {
    if s != [] && IsSpace(s[|s| - 1]) then
      var init := s[..|s| - 1];
      var r := RStripSpace(init);
      assert s[|r|..] == init[|r|..] + [s[|s| - 1]];
      r
    else s
  }

  /** Group 1 of `^[\s&]*(.*?)\s*$` (multi-line mode) matched at the start of
      `s`. The greedy lead takes every leading blank and `&`; the lazy group
      stops at the first point from which only blanks remain before a newline
      or the end, so it is the first line of the rest with trailing blanks
      removed. The match cannot fail: at the latest it succeeds before the
      first newline. */
  function RowToPlain(s: string): (g: string)
    ensures '\n' !in g
    ensures g == [] || (!IsRowLead(g[0]) && !IsSpace(g[|g| - 1]))
    ensures IsPrefix(g, DropRowLead(s))
    ensures AllSpace(FirstLine(DropRowLead(s))[|g|..])
  {
    RStripSpace(FirstLine(DropRowLead(s)))
  }

  /** `has_2_columns.match(s)`, i.e. `^\s*[^\s]+\s*&\s*[^\s]+.*` at the start
      of `s`. The leading `\s*` can only end where the first non-blank is
      (the next class needs a non-blank), so it starts at `i`; `.*` may match
      nothing. */
  predicate HasTwoColumns(s: string) {
    ColumnsFrom(s, |s| - |LStrip(s)|)
  }

  predicate ColumnsFrom(s: string, i: int) {
    exists j, k | 0 <= j < |s| && 0 <= k < |s| :: ColumnsAt(s, i, j, k)
  }

  /** The first column is `s[i..j]`, the blanks after it `s[j..k]`, the
      separator `s[k]`, and a non-blank follows. */
  predicate ColumnsAt(s: string, i: int, j: int, k: int) {
    && 0 <= i < j <= k < |s|
    && NoSpace(s[i..j]) && AllSpace(s[j..k]) && s[k] == '&' && !AllSpace(s[k + 1..])
  }

  /** Text of one raw token: comments vanish, a lone `\\` is a line break,
      and otherwise the first content row survives, after `&` column
      separators of a two-column row were turned into line breaks. */
  function LatexStrToStr(latex: string): string {
    if StartsWith(latex, "%") then ""
    else if latex == "\\\\" then "\n"
    else RowToPlain(if HasTwoColumns(latex) then ReplaceChar(latex, '&', '\n') else latex)
  }

  /** The text of a token is a single trimmed line; a two-column row loses
      its separators. */
  lemma LatexStrToStrShape(latex: string)
    ensures StartsWith(latex, "%") ==> LatexStrToStr(latex) == ""
    ensures !StartsWith(latex, "%") && latex == "\\\\" ==> LatexStrToStr(latex) == "\n"
    ensures !StartsWith(latex, "%") && latex != "\\\\" ==>
      var r := LatexStrToStr(latex);
      '\n' !in r && (r == [] || (!IsRowLead(r[0]) && !IsSpace(r[|r| - 1])))
    ensures !StartsWith(latex, "%") && HasTwoColumns(latex) ==> '&' !in LatexStrToStr(latex)
  {
    if !StartsWith(latex, "%") && HasTwoColumns(latex) {
      var row := ReplaceChar(latex, '&', '\n');
      assert '&' !in row by {
        forall i | 0 <= i < |row| ensures row[i] != '&' { }
      }
      RowToPlainKeepsOut(row, '&');
    }
  }

  /** The group only holds characters of the row. */
  lemma RowToPlainKeepsOut(s: string, c: char)
    ensures c !in s ==> c !in RowToPlain(s)
  {
    var d := DropRowLead(s);
    var g := RowToPlain(s);
    assert g == s[|s| - |d|..][..|g|];
    assert forall i :: 0 <= i < |g| ==> g[i] == s[|s| - |d| + i];
  }

  /** Stripping a lead of blanks and `&`: a rest that starts with some
      other character is what remains. */
  lemma DropRowLeadOf(lead: string, y: string)
    requires forall i :: 0 <= i < |lead| ==> IsRowLead(lead[i])
    requires y != [] && !IsRowLead(y[0])
    ensures DropRowLead(lead + y) == y
  {
    RowLeadLengthOf(lead, y);
    assert (lead + y)[|lead|..] == y;
  }

  lemma {:induction false} RowLeadLengthOf(lead: string, y: string)
    requires forall i :: 0 <= i < |lead| ==> IsRowLead(lead[i])
    requires y != [] && !IsRowLead(y[0])
    ensures RowLeadLength(lead + y) == |lead|
    decreases |lead|
  {
    if lead == [] {
      assert lead + y == y;
    } else {
      var s := lead + y;
      assert s[0] == lead[0] && IsRowLead(lead[0]);
      assert s[1..] == lead[1..] + y;
      RowLeadLengthOf(lead[1..], y);
    }
  }

  lemma LStripOf(lead: string, y: string)
    requires AllSpace(lead)
    requires y != [] && !IsSpace(y[0])
    ensures LStrip(lead + y) == y
  {
    LeadingSpaceOf(lead, y);
    assert (lead + y)[|lead|..] == y;
  }

  lemma {:induction false} LeadingSpaceOf(lead: string, y: string)
    requires AllSpace(lead)
    requires y != [] && !IsSpace(y[0])
    ensures LeadingSpace(lead + y) == |lead|
    decreases |lead|
  {
    if lead == [] {
      assert lead + y == y;
    } else {
      var s := lead + y;
      assert s[0] == lead[0] && IsSpace(lead[0]);
      assert s[1..] == lead[1..] + y;
      LeadingSpaceOf(lead[1..], y);
    }
  }

  /** The first line of a text whose first newline follows `x` is `x`. */
  lemma {:induction false} FirstLineOf(x: string, rest: string)
    requires '\n' !in x
    ensures FirstLine(x + "\n" + rest) == x
    decreases |x|
  {
    if x == [] {
      assert x + "\n" + rest == "\n" + rest;
    } else {
      assert (x + "\n" + rest)[1..] == x[1..] + "\n" + rest;
      FirstLineOf(x[1..], rest);
      assert [x[0]] + x[1..] == x;
    }
  }

  /** Trailing blanks after a word that ends in a non-blank go. */
  lemma {:induction false} RStripSpaceOf(w: string, sp: string)
    requires w != [] && !IsSpace(w[|w| - 1]) && AllSpace(sp)
    ensures RStripSpace(w + sp) == w
    decreases |sp|
  {
    if sp == [] {
      assert w + sp == w;
    } else {
      assert (w + sp)[..|w + sp| - 1] == w + sp[..|sp| - 1];
      RStripSpaceOf(w, sp[..|sp| - 1]);
    }
  }

  /** The group of a row whose first line is a word and blanks is the word. */
  lemma RowToPlainOfWord(w: string, sp: string, rest: string)
    requires w != [] && NoSpace(w) && '&' !in w
    requires AllSpace(sp) && '\n' !in sp
    ensures RowToPlain(w + sp + "\n" + rest) == w
  {
    var x := w + sp;
    assert x + "\n" + rest == w + sp + "\n" + rest;
    assert !IsRowLead(x[0]) by { assert x[0] == w[0]; }
    DropRowLeadOf([], x + "\n" + rest);
    assert [] + (x + "\n" + rest) == x + "\n" + rest;
    assert '\n' !in w by { assert IsSpace('\n'); }
    FirstLineOf(x, rest);
    RStripSpaceOf(w, sp);
  }

  lemma TwoColumnsOf(lead: string, w: string, sp: string, rest: string)
    requires AllSpace(lead)
    requires w != [] && NoSpace(w)
    requires AllSpace(sp)
    requires !AllSpace(rest)
    ensures HasTwoColumns(lead + w + sp + "&" + rest)
  {
    var s := lead + w + sp + "&" + rest;
    var y := w + sp + "&" + rest;
    var i, j, k := |lead|, |lead| + |w|, |lead| + |w| + |sp|;
    assert |s| - |LStrip(s)| == i by {
      assert s == lead + y;
      assert y[0] == w[0];
      LStripOf(lead, y);
    }
    assert NoSpace(s[i..j]) by { assert s[i..j] == w; }
    assert AllSpace(s[j..k]) by { assert s[j..k] == sp; }
    assert s[k] == '&';
    assert !AllSpace(s[k + 1..]) by { assert s[k + 1..] == rest; }
    assert ColumnsAt(s, i, j, k);
  }

  lemma ReplaceOf(lead: string, w: string, sp: string, rest: string)
    requires AllSpace(lead) && AllSpace(sp) && '&' !in w
    ensures ReplaceChar(lead + w + sp + "&" + rest, '&', '\n')
         == lead + (w + sp + "\n" + ReplaceChar(rest, '&', '\n'))
  {
    var s := lead + w + sp + "&" + rest;
    var i, j, k := |lead|, |lead| + |w|, |lead| + |w| + |sp|;
    var row := ReplaceChar(s, '&', '\n');
    var t := lead + (w + sp + "\n" + ReplaceChar(rest, '&', '\n'));
    assert |row| == |t|;
    forall p | 0 <= p < |row| ensures row[p] == t[p] {
      if p < i { assert s[p] == lead[p]; }
      else if p < j { assert s[p] == w[p - i]; }
      else if p < k { assert s[p] == sp[p - j]; }
      else if p > k { assert s[p] == rest[p - k - 1]; }
    }
  }

  /** A two-column row keeps only its first column: the word before the
      `&`, without the blanks around it. */
  lemma TwoColumnRowKeepsFirstColumn(lead: string, w: string, sp: string, rest: string)
    requires AllSpace(lead)
    requires w != [] && NoSpace(w) && '&' !in w && w[0] != '%'
    requires AllSpace(sp) && '\n' !in sp
    requires !AllSpace(rest)
    ensures LatexStrToStr(lead + w + sp + "&" + rest) == w
  {
    var s := lead + w + sp + "&" + rest;
    assert HasTwoColumns(s) by { TwoColumnsOf(lead, w, sp, rest); }
    assert RowToPlain(ReplaceChar(s, '&', '\n')) == w by { FirstColumnOfRow(lead, w, sp, rest); }
    assert !StartsWith(s, "%") by {
      assert s[0] != '%' by {
        if lead != [] { assert s[0] == lead[0] && IsSpace(lead[0]); } else { assert s[0] == w[0]; }
      }
      assert s[..1][0] == s[0];
    }
    assert s != "\\\\" by { assert |s| > 2; }
    TwoColumnRowText(s);
  }

  lemma FirstColumnOfRow(lead: string, w: string, sp: string, rest: string)
    requires AllSpace(lead)
    requires w != [] && NoSpace(w) && '&' !in w
    requires AllSpace(sp) && '\n' !in sp
    ensures RowToPlain(ReplaceChar(lead + w + sp + "&" + rest, '&', '\n')) == w
  {
    var rest' := ReplaceChar(rest, '&', '\n');
    var y := w + sp + "\n" + rest';
    ReplaceOf(lead, w, sp, rest);
    DropRowLeadOf(lead, y);
    DropRowLeadOf([], y);
    assert [] + y == y;
    RowToPlainOfWord(w, sp, rest');
  }

  lemma TwoColumnRowText(s: string)
    requires !StartsWith(s, "%") && s != "\\\\" && HasTwoColumns(s)
    ensures LatexStrToStr(s) == RowToPlain(ReplaceChar(s, '&', '\n'))
  {
  }

  // ---------------------------------------------------------------------
  // verse_args_to_str: a node list to text
  // ---------------------------------------------------------------------

  function Open(w: Wrap): string {
    match w
    case Italic => "<i>"
    case Bold => "<b>"
    case Preformatted => "<pre>"
  }

  function Close(w: Wrap): string {
    match w
    case Italic => "</i>"
    case Bold => "</b>"
    case Preformatted => "</pre>"
  }

  /** The text of a node list: each node's text, in order. */
  function Translation(nodes: seq<Node>): string
    decreases SizeAll(nodes), 1
  {
    if nodes == [] then ""
    else Translation(nodes[..|nodes| - 1]) + NodeTranslation(nodes[|nodes| - 1])
  }

  /** The text of one node. Environments other than chorus and tabular, unknown
      commands and unexpected node kinds give nothing. */
  function NodeTranslation(n: Node): string
    decreases Size(n), 0
  {
    match n
    case Env(name, args, contents) =>
      if name == "chorus" then "<i>" + Translation(contents) + "</i>"
      else if name == "tabular" then Translation(Drop(contents, |args|))
      else ""
    case Text(s) => LatexStrToStr(s)
    case Cmd(name, _, contents) =>
      (match CommandAction(name)
      case Passthrough => Translation(contents)
      case Repeat => ":,: " + Translation(contents) + " :,: "
      case Symbol(t) => t
      case Suppress => ""
      case RepeatLeft => ":,: " + Translation(contents)
      case Wrapped(w) => Open(w) + Translation(contents) + Close(w)
      case NameAsText => " " + name
      case Unknown => "")
    case Math(contents) => Translation(contents)
    case Group(contents) => Translation(contents)
    case Other(_, _, _) => ""
  }

  /** Translating a list is translating its parts. */
  lemma {:induction false} TranslationAppend(a: seq<Node>, b: seq<Node>)
    ensures Translation(a + b) == Translation(a) + Translation(b)
    decreases |b|
  {
    if b == [] {
      assert a + b == a;
    } else {
      var b' := b[..|b| - 1];
      assert (a + b)[..|a + b| - 1] == a + b';
      TranslationAppend(a, b');
    }
  }

  /** The nodes the translator skips. */
  predicate Skipped(n: Node) {
    || n.Other?
    || (n.Env? && n.name != "chorus" && n.name != "tabular")
    || (n.Cmd? && (CommandAction(n.name).Unknown? || CommandAction(n.name).Suppress?))
    || (n.Text? && StartsWith(n.text, "%"))
  }

  /** A skipped node contributes nothing and leaves its siblings' text intact. */
  lemma SkippedNodeIsIsolated(a: seq<Node>, n: Node, b: seq<Node>)
    requires Skipped(n)
    ensures Translation(a + [n] + b) == Translation(a) + Translation(b)
  {
    TranslationAppend(a + [n], b);
    TranslationAppend(a, [n]);
    TranslationSingle(n);
    SkippedNodeIsEmpty(n);
  }

  lemma SkippedNodeIsEmpty(n: Node)
    requires Skipped(n)
    ensures NodeTranslation(n) == ""
  {
    match n {
      case Text(s) => assert LatexStrToStr(s) == "";
      case Cmd(_, _, _) =>
      case _ =>
    }
  }

  lemma TranslationSingle(n: Node)
    ensures Translation([n]) == NodeTranslation(n)
  {
    assert [n][..0] == [];
  }

  /** The markup each recognised node puts around its content. */
  lemma {:induction false} MarkupRules(n: Node)
    ensures n.Env? && n.name == "chorus" ==>
      Translation([n]) == "<i>" + Translation(n.contents) + "</i>"
    ensures n.Env? && n.name == "tabular" ==>
      Translation([n]) == Translation(if |n.args| <= |n.contents| then n.contents[|n.args|..] else [])
    ensures n.Cmd? && CommandAction(n.name).Wrapped? ==>
      var w := CommandAction(n.name).kind;
      Translation([n]) == Open(w) + Translation(n.contents) + Close(w)
    ensures n.Cmd? && n.name == "srepeat" ==>
      Translation([n]) == ":,: " + Translation(n.contents) + " :,: "
    ensures n.Cmd? && n.name == "srepeatleft" ==> Translation([n]) == ":,: " + Translation(n.contents)
    ensures n.Cmd? && n.name in IgnoreFormatting ==> Translation([n]) == Translation(n.contents)
    ensures n.Cmd? && n.name in HandleAsLiteral ==> Translation([n]) == " " + n.name
    ensures (n.Math? || n.Group?) ==> Translation([n]) == Translation(n.contents)
  {
    assert [n][..0] == [];
  }

  /** The commands that wrap their content in an HTML tag, by name. */
  lemma {:induction false} WrapperRules(n: Node)
    ensures n.Cmd? && n.name == "textit" ==> Translation([n]) == "<i>" + Translation(n.contents) + "</i>"
    ensures n.Cmd? && n.name == "emph" ==> Translation([n]) == "<b>" + Translation(n.contents) + "</b>"
    ensures n.Cmd? && n.name == "sourcecodepro" ==>
      Translation([n]) == "<pre>" + Translation(n.contents) + "</pre>"
  {
    assert [n][..0] == [];
  }

  /** The commands that stand for a fixed symbol. */
  lemma {:induction false} SymbolRules(name: string, args: seq<Node>, contents: seq<Node>)
    ensures name == "times" ==> Translation([Cmd(name, args, contents)]) == "\U{D7}"
    ensures name in {"ldots", "dots", "cdots"} ==> Translation([Cmd(name, args, contents)]) == "..."
    ensures name == "epsilon" ==> Translation([Cmd(name, args, contents)]) == "\U{3B5}"
  {
    assert [Cmd(name, args, contents)][..0] == [];
  }

  /** `verse_args_to_str`: builds the text node by node. */
  method VerseArgsToStr(latexLines: seq<Node>) returns (out: string)
    ensures out == Translation(latexLines)
    decreases SizeAll(latexLines), 1
  {
    out := "";
    for i := 0 to |latexLines|
      invariant out == Translation(latexLines[..i])
    {
      assert latexLines[..i + 1][..i] == latexLines[..i];
      SizeAllElement(latexLines, i);
      var text := LineToStr(latexLines[i]);
      out := out + text;
    }
    assert latexLines[..|latexLines|] == latexLines;
  }

  /** One iteration of `verse_args_to_str`: the text of one node, recursing
      into the content of wrapping nodes. */
  method LineToStr(line: Node) returns (out: string)
    ensures out == NodeTranslation(line)
    decreases Size(line), 0
  {
    out := "";
    match line {
      case Env(name, args, contents) =>
        if name == "chorus" {
          var inner := VerseArgsToStr(contents);
          out := "<i>" + inner + "</i>";
        } else if name == "tabular" {
          out := VerseArgsToStr(Drop(contents, |args|));
        }
      case Text(s) =>
        out := LatexStrToStr(s);
      case Cmd(name, _, contents) =>
        match CommandAction(name) {
          case Passthrough =>
            out := VerseArgsToStr(contents);
          case Repeat =>
            var inner := VerseArgsToStr(contents);
            out := ":,: " + inner + " :,: ";
          case Symbol(t) =>
            out := t;
          case Suppress =>
          case RepeatLeft =>
            var inner := VerseArgsToStr(contents);
            out := ":,: " + inner;
          case Wrapped(w) =>
            var inner := VerseArgsToStr(contents);
            out := Open(w) + inner + Close(w);
          case NameAsText =>
            out := " " + name;
          case Unknown =>
        }
      case Math(contents) =>
        out := VerseArgsToStr(contents);
      case Group(contents) =>
        out := VerseArgsToStr(contents);
      case Other(_, _, _) =>
    }
  }

  // ---------------------------------------------------------------------
  // handle_uverse, handle_verses: the song body
  // ---------------------------------------------------------------------

  /** The text of an unnumbered verse, provided it has exactly one argument
      and that argument is a brace group; otherwise the assertion fails. */
  function HandleUverse(uverse: Node): (r: Option<string>)
    ensures r.Some? <==> |Args(uverse)| == 1 && Args(uverse)[0].Group?
    ensures r.Some? ==> r.value == Translation(Args(uverse)[0].contents)
  {
    if |Args(uverse)| == 1 && Args(uverse)[0].Group? then Some(Translation(Args(uverse)[0].contents))
    else None
  }

  /** The lyrics text of a song body: each verse's text, in order. */
  function Lyrics(content: seq<Node>, render: Node -> string): string
    decreases SizeAll(content), 1
  {
    if content == [] then ""
    else Lyrics(content[..|content| - 1], render) + VerseText(content[|content| - 1], render)
  }

  /** What one body node contributes. A node that fails (a malformed verse, a
      subsong without content) contributes nothing, as does any name other
      than samepage, uverse and subsong. */
  function VerseText(c: Node, render: Node -> string): string
    decreases Size(c), 0
  {
    match Name(c)
    case None => ""
    case Some(name) =>
      if name in SkipVerseTypes then ""
      else if name == "samepage" then Lyrics(Contents(c), render)
      else if name == "uverse" then
        (match HandleUverse(c)
        case Some(t) => t + "\n\n"
        case None => "")
      else if name == "subsong" then
        if |Contents(c)| == 0 then ""
        else "<i>" + Str(Contents(c)[0], render) + "</i>\n" + Lyrics(NonText(Contents(c)), render) + "\n\n"
      else ""
  }

  lemma {:induction false} LyricsAppend(a: seq<Node>, b: seq<Node>, render: Node -> string)
    ensures Lyrics(a + b, render) == Lyrics(a, render) + Lyrics(b, render)
    decreases |b|
  {
    if b == [] {
      assert a + b == a;
    } else {
      var b', x := b[..|b| - 1], b[|b| - 1];
      assert (a + b)[..|a + b| - 1] == a + b' && (a + b)[|a + b| - 1] == x;
      assert Lyrics(a + b, render) == Lyrics(a + b', render) + VerseText(x, render);
      LyricsAppend(a, b', render);
    }
  }

  /** A samepage container is transparent: its children count as if they
      stood in its place. */
  lemma SamepageIsTransparent(a: seq<Node>, c: Node, b: seq<Node>, render: Node -> string)
    requires Name(c) == Some("samepage")
    ensures Lyrics(a + [c] + b, render) == Lyrics(a, render) + Lyrics(Contents(c), render) + Lyrics(b, render)
  {
    assert VerseText(c, render) == Lyrics(Contents(c), render) by { SamepageText(c, render); }
    LyricsAround(a, c, b, render);
  }

  lemma SamepageText(c: Node, render: Node -> string)
    requires Name(c) == Some("samepage")
    ensures VerseText(c, render) == Lyrics(Contents(c), render)
  {
  }

  /** The body nodes that contribute nothing. */
  predicate DroppedVerse(c: Node) {
    match Name(c)
    case None => true
    case Some(name) =>
      || name in SkipVerseTypes
      || name !in {"samepage", "uverse", "subsong"}
      || (name == "uverse" && HandleUverse(c).None?)
      || (name == "subsong" && |Contents(c)| == 0)
  }

  /** A dropped or failing body node leaves the rest of the lyrics intact. */
  lemma DroppedVerseIsIsolated(a: seq<Node>, c: Node, b: seq<Node>, render: Node -> string)
    requires DroppedVerse(c)
    ensures Lyrics(a + [c] + b, render) == Lyrics(a, render) + Lyrics(b, render)
  {
    DroppedVerseIsEmpty(c, render);
    SilentVerseIsIsolated(a, c, b, render);
  }

  lemma SilentVerseIsIsolated(a: seq<Node>, c: Node, b: seq<Node>, render: Node -> string)
    requires VerseText(c, render) == ""
    ensures Lyrics(a + [c] + b, render) == Lyrics(a, render) + Lyrics(b, render)
  {
    LyricsAround(a, c, b, render);
    ConcatEmpty(Lyrics(a, render), VerseText(c, render), Lyrics(b, render));
  }

  /** Kept apart from its caller so that the solver sees only this
      string identity, not the definitions of the lyrics around it. */
  lemma ConcatEmpty(x: string, t: string, y: string)
    requires t == ""
    ensures x + t + y == x + y
  {
  }

  lemma LyricsAround(a: seq<Node>, c: Node, b: seq<Node>, render: Node -> string)
    ensures Lyrics(a + [c] + b, render) == Lyrics(a, render) + VerseText(c, render) + Lyrics(b, render)
  {
    LyricsAppend(a + [c], b, render);
    LyricsAppend(a, [c], render);
    LyricsSingle(c, render);
  }

  lemma DroppedVerseIsEmpty(c: Node, render: Node -> string)
    requires DroppedVerse(c)
    ensures VerseText(c, render) == ""
  {
    match Name(c) {
      case None =>
      case Some(name) =>
        if name == "uverse" && HandleUverse(c).Some? {
          assert name in SkipVerseTypes;
        } else if name == "subsong" && |Contents(c)| > 0 {
          assert name in SkipVerseTypes;
        }
    }
  }

  lemma LyricsSingle(c: Node, render: Node -> string)
    ensures Lyrics([c], render) == VerseText(c, render)
  {
    assert [c][..0] == [];
  }

  /** A well-formed unnumbered verse contributes its text and a blank line. */
  lemma UverseRule(c: Node, render: Node -> string)
    requires Name(c) == Some("uverse") && HandleUverse(c).Some?
    ensures Lyrics([c], render) == HandleUverse(c).value + "\n\n"
  {
    LyricsSingle(c, render);
  }

  /** A subsong contributes its title in italics, then its verses, with
      the text tokens among them making no difference. */
  lemma SubsongRule(c: Node, render: Node -> string)
    requires Name(c) == Some("subsong") && |Contents(c)| > 0
    ensures Lyrics([c], render) ==
      "<i>" + Str(Contents(c)[0], render) + "</i>\n" + Lyrics(Contents(c), render) + "\n\n"
  {
    LyricsSingle(c, render);
    LyricsIgnoresText(Contents(c), render);
  }

  /** Text tokens contribute nothing to the lyrics, so the subsong's
      filtering of its content changes nothing. */
  lemma {:induction false} LyricsIgnoresText(xs: seq<Node>, render: Node -> string)
    ensures Lyrics(NonText(xs), render) == Lyrics(xs, render)
    decreases |xs|
  {
    if xs != [] {
      var init, last := xs[..|xs| - 1], xs[|xs| - 1];
      LyricsIgnoresText(init, render);
      if !last.Text? {
        var r := NonText(init) + [last];
        assert r[..|r| - 1] == NonText(init);
      }
    }
  }

  /** `handle_verses`: walks the body node by node. */
  method HandleVerses(content: seq<Node>, render: Node -> string) returns (out: string)
    ensures out == Lyrics(content, render)
    decreases SizeAll(content), 1
  {
    out := "";
    for i := 0 to |content|
      invariant out == Lyrics(content[..i], render)
    {
      assert content[..i + 1][..i] == content[..i];
      SizeAllElement(content, i);
      var text := VerseToStr(content[i], render);
      out := out + text;
    }
    assert content[..|content|] == content;
  }

  /** One iteration of `handle_verses`; a node that raises contributes
      nothing (the exception is reported and the loop continues). */
  method VerseToStr(c: Node, render: Node -> string) returns (out: string)
    ensures out == VerseText(c, render)
    decreases Size(c), 0
  {
    out := "";
    if c.Text? || Name(c).value in SkipVerseTypes {
      return;
    }
    var name := Name(c).value;
    if name == "samepage" {
      out := HandleVerses(Contents(c), render);
    } else if name == "uverse" {
      var verse := HandleUverse(c);
      if verse.None? {
        return;
      }
      out := verse.value + "\n\n";
    } else if name == "subsong" {
      var verses := NonText(Contents(c));
      if |Contents(c)| == 0 {
        return;
      }
      var title := Contents(c)[0];
      var inner := HandleVerses(verses, render);
      out := "<i>" + Str(title, render) + "</i>\n" + inner + "\n\n";
    }
  }

  // ---------------------------------------------------------------------
  // parse_tex and the Parse Error filter of main
  // ---------------------------------------------------------------------

  datatype SongInfo = SongInfo(
    name: string,
    melody: Option<string>,
    composer: Option<string>,
    arranger: Option<string>,
    lyrics: string)

  /** The record returned when the document has no song. */
  const ParseErrorInfo := SongInfo("Parse Error", None, None, None, "Could not parse this song")

  /** The first content item of a present argument that has contents. */
  function FirstContent(arg: Option<Node>): Option<Node> {
    match arg
    case None => None
    case Some(n) => if n.Text? || |Contents(n)| == 0 then None else Some(Contents(n)[0])
  }

  function MetaField(arg: Option<Node>, render: Node -> string): Option<string> {
    match FirstContent(arg)
    case None => None
    case Some(x) => Some(Str(x, render))
  }

  /** `parse_tex`, from the song environment the parser found (`None` when
      there is none or the parser failed). */
  function ParseTex(song: Option<SongEnv>, render: Node -> string): (r: SongInfo)
    ensures song.None? ==> r == ParseErrorInfo
    ensures '~' !in r.name
    ensures song.Some? ==> r.lyrics == Lyrics(song.value.children, render)
    ensures song.Some? && FirstContent(Slot(song.value.args, 0)).None? ==> r.name == "Unknown Song"
    ensures song.Some? ==>
      && (r.melody.None? <==> FirstContent(Slot(song.value.args, 1)).None?)
      && (r.composer.None? <==> FirstContent(Slot(song.value.args, 5)).None?)
      && (r.arranger.None? <==> FirstContent(Slot(song.value.args, 6)).None?)
    ensures song.Some? && FirstContent(Slot(song.value.args, 0)).Some? ==>
      r.name == ReplaceChar(Str(FirstContent(Slot(song.value.args, 0)).value, render), '~', ' ')
    ensures song.Some? && FirstContent(Slot(song.value.args, 1)).Some? ==>
      r.melody == Some(Str(FirstContent(Slot(song.value.args, 1)).value, render))
    ensures song.Some? && FirstContent(Slot(song.value.args, 5)).Some? ==>
      r.composer == Some(Str(FirstContent(Slot(song.value.args, 5)).value, render))
    ensures song.Some? && FirstContent(Slot(song.value.args, 6)).Some? ==>
      r.arranger == Some(Str(FirstContent(Slot(song.value.args, 6)).value, render))
  {
    match song
    case None => ParseErrorInfo
    case Some(SongEnv(args, children)) =>
      var name :=
        match FirstContent(Slot(args, 0))
        case None => "Unknown Song"
        case Some(x) => ReplaceChar(Str(x, render), '~', ' ');
      assert '~' !in name;
      SongInfo(
        name,
        MetaField(Slot(args, 1), render),
        MetaField(Slot(args, 5), render),
        MetaField(Slot(args, 6), render),
        Lyrics(children, render))
  }

  /** The records `main` keeps, in order. */
  function Accepted(parsed: seq<(string, SongInfo)>): (r: seq<SongInfo>) {
    if parsed == [] then []
    else
      var last := parsed[|parsed| - 1];
      Accepted(parsed[..|parsed| - 1]) + (if last.1.name != "Parse Error" then [last.1] else [])
  }

  /** The paths `main` reports as failed, in order. */
  function Failed(parsed: seq<(string, SongInfo)>): (r: seq<string>) {
    if parsed == [] then []
    else
      var last := parsed[|parsed| - 1];
      Failed(parsed[..|parsed| - 1]) + (if last.1.name == "Parse Error" then [last.0] else [])
  }

  /** Every parsed file is either kept or counted as failed, and no kept
      record is named "Parse Error". */
  lemma {:induction false} AcceptedPartition(parsed: seq<(string, SongInfo)>)
    ensures |Accepted(parsed)| + |Failed(parsed)| == |parsed|
    ensures forall s :: s in Accepted(parsed) ==> s.name != "Parse Error"
    ensures forall i :: 0 <= i < |parsed| && parsed[i].1.name != "Parse Error" ==> parsed[i].1 in Accepted(parsed)
  {
    if parsed != [] {
      AcceptedPartition(parsed[..|parsed| - 1]);
      assert forall i :: 0 <= i < |parsed| - 1 ==> parsed[i] == parsed[..|parsed| - 1][i];
    }
  }

  /** The failure record is never kept, but neither is a genuine song whose
      title is "Parse Error". */
  lemma ParseErrorTitleIsRejected(path: string, children: seq<Node>, render: Node -> string)
    ensures Accepted([(path, ParseTex(None, render))]) == []
    ensures Accepted([(path, ParseTex(Some(SongEnv([Group([Text("Parse Error")])], children)), render))]) == []
  {
    var song := SongEnv([Group([Text("Parse Error")])], children);
    assert ParseTex(Some(song), render).name == "Parse Error" by {
      assert FirstContent(Slot(song.args, 0)) == Some(Text("Parse Error"));
      ReplaceCharAbsent("Parse Error", '~', ' ');
    }
    AcceptedSingle(path, ParseTex(None, render));
    AcceptedSingle(path, ParseTex(Some(song), render));
  }

  lemma ReplaceCharAbsent(s: string, a: char, b: char)
    requires a !in s
    ensures ReplaceChar(s, a, b) == s
  {
  }

  lemma AcceptedSingle(path: string, info: SongInfo)
    ensures Accepted([(path, info)]) == if info.name == "Parse Error" then [] else [info]
  {
    assert [(path, info)][..0] == [];
  }

  /** The filtering loop of `main` over the files that decoded, each with
      its path and `parse_tex` result. */
  method CollectSongs(parsed: seq<(string, SongInfo)>) returns (songs: seq<SongInfo>, failedFiles: seq<string>)
    ensures songs == Accepted(parsed) && failedFiles == Failed(parsed)
    ensures |songs| + |failedFiles| == |parsed|
    ensures forall s :: s in songs ==> s.name != "Parse Error"
  {
    songs, failedFiles := [], [];
    for i := 0 to |parsed|
      invariant songs == Accepted(parsed[..i]) && failedFiles == Failed(parsed[..i])
    {
      assert parsed[..i + 1][..i] == parsed[..i];
      var (pa, song) := parsed[i];
      if song.name != "Parse Error" {
        songs := songs + [song];
      } else {
        failedFiles := failedFiles + [pa];
      }
    }
    assert parsed[..|parsed|] == parsed;
    AcceptedPartition(parsed);
  }
}
