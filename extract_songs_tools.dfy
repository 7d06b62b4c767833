/** The older song extractor (`tools/extract_songs.py`). It walks the same
    parsed tree as the newer one, but with different markers, a simpler
    treatment of raw text, and no tolerance: the first node it cannot
    handle raises, and the whole song fails with that exception. */
module ToolsExtractSongs {
  import opened Python
  import opened LatexTree

  // ---------------------------------------------------------------------
  // Exceptions as results
  // ---------------------------------------------------------------------

  /** `out += a` followed by `out += b`: the first exception wins. */
  function Then(a: Result<string>, b: Result<string>): (r: Result<string>)
    ensures a.Err? ==> r == a
    ensures a.Ok? && b.Err? ==> r == b
    ensures a.Ok? && b.Ok? ==> r == Ok(a.value + b.value)
  {
    if a.Err? then a else if b.Err? then b else Ok(a.value + b.value)
  }

  lemma ThenAssoc(a: Result<string>, b: Result<string>, c: Result<string>)
    ensures Then(Then(a, b), c) == Then(a, Then(b, c))
  {
    if a.Ok? && b.Ok? && c.Ok? {
      assert (a.value + b.value) + c.value == a.value + (b.value + c.value);
    }
  }

  lemma ThenUnit(r: Result<string>)
    ensures Then(Ok(""), r) == r && Then(r, Ok("")) == r
  {
    if r.Ok? {
      assert "" + r.value == r.value && r.value + "" == r.value;
    }
  }

  /** The text of `r` between two fixed strings, if there is a text. */
  function Around(pre: string, r: Result<string>, post: string): Result<string> {
    if r.Err? then r else Ok(pre + r.value + post)
  }

  // ---------------------------------------------------------------------
  // latex_str_to_str
  // ---------------------------------------------------------------------

  /** No two backslashes in a row. */
  predicate NoDoubleBackslash(s: string) {
    forall i :: 0 <= i < |s| - 1 ==> !(s[i] == '\\' && s[i + 1] == '\\')
  }

  /** `s.replace("\\\\", "\n")`: each pair of backslashes, found left to
      right without overlap, becomes a newline. */
  function ReplaceDoubleBackslash(s: string): (r: string)
    ensures |r| <= |s|
    ensures NoDoubleBackslash(r)
    ensures r != [] && r[0] == '\\' ==> s[0] == '\\' && (|s| == 1 || s[1] != '\\')
  {
    if |s| >= 2 && s[0] == '\\' && s[1] == '\\' then
      var t := ReplaceDoubleBackslash(s[2..]);
      assert forall i :: 1 <= i < |t| + 1 ==> ("\n" + t)[i] == t[i - 1];
      "\n" + t
    else if s == [] then []
    else
      var t := ReplaceDoubleBackslash(s[1..]);
      assert forall i :: 1 <= i < |t| + 1 ==> ([s[0]] + t)[i] == t[i - 1];
      [s[0]] + t
  }

  /** A string with no backslash pair is left as it is; in particular the
      replacement is idempotent. */
  lemma {:induction false} ReplaceDoubleBackslashFixes(s: string)
    requires NoDoubleBackslash(s)
    ensures ReplaceDoubleBackslash(s) == s
    decreases |s|
  {
    if s != [] {
      assert NoDoubleBackslash(s[1..]) by {
        forall i | 0 <= i < |s| - 2 ensures !(s[1..][i] == '\\' && s[1..][i + 1] == '\\') {
          assert s[1..][i] == s[i + 1] && s[1..][i + 1] == s[i + 2];
        }
      }
      ReplaceDoubleBackslashFixes(s[1..]);
      assert [s[0]] + s[1..] == s;
    }
  }

  /** Each backslash pair becomes a line break, and the text before the
      first pair is kept as it is. */
  lemma {:induction false} ReplaceDoubleBackslashAt(a: string, b: string)
    requires NoDoubleBackslash(a) && (a == [] || a[|a| - 1] != '\\')
    ensures ReplaceDoubleBackslash(a + "\\\\" + b) == a + "\n" + ReplaceDoubleBackslash(b)
    decreases |a|
  {
    var t := a + "\\\\" + b;
    if a == [] {
      assert t[2..] == b;
    } else {
      assert t[0] == a[0] && t[1..] == a[1..] + "\\\\" + b;
      assert !(t[0] == '\\' && t[1] == '\\') by {
        if |a| >= 2 {
          assert !(a[0] == '\\' && a[1] == '\\');
        }
      }
      assert NoDoubleBackslash(a[1..]) by {
        forall i | 0 <= i < |a| - 2 ensures !(a[1..][i] == '\\' && a[1..][i + 1] == '\\') {
          assert a[1..][i] == a[i + 1] && a[1..][i + 1] == a[i + 2];
        }
      }
      ReplaceDoubleBackslashAt(a[1..], b);
      assert a == [a[0]] + a[1..];
    }
  }

  lemma ReplaceDoubleBackslashIdempotent(s: string)
    ensures ReplaceDoubleBackslash(ReplaceDoubleBackslash(s)) == ReplaceDoubleBackslash(s)
  {
    ReplaceDoubleBackslashFixes(ReplaceDoubleBackslash(s));
  }

  /** Text of one raw token: comments vanish; otherwise one leading newline
      goes and each `\\` becomes a newline. */
  function LatexStrToStr(latex: string): string {
    if StartsWith(latex, "%") then ""
    else ReplaceDoubleBackslash(if StartsWith(latex, "\n") then latex[1..] else latex)
  }

  /** The token's text is never longer than the token, and never holds a
      `\\` line-break command. */
  lemma LatexStrToStrShape(latex: string)
    ensures StartsWith(latex, "%") ==> LatexStrToStr(latex) == ""
    ensures |LatexStrToStr(latex)| <= |latex|
    ensures NoDoubleBackslash(LatexStrToStr(latex))
    ensures !StartsWith(latex, "%") && NoDoubleBackslash(latex) && !StartsWith(latex, "\n") ==>
      LatexStrToStr(latex) == latex
    ensures !StartsWith(latex, "%") && StartsWith(latex, "\n") ==>
      LatexStrToStr(latex) == ReplaceDoubleBackslash(latex[1..])
    ensures !StartsWith(latex, "%") && !StartsWith(latex, "\n") ==>
      LatexStrToStr(latex) == ReplaceDoubleBackslash(latex)
  {
    if !StartsWith(latex, "%") && NoDoubleBackslash(latex) && !StartsWith(latex, "\n") {
      ReplaceDoubleBackslashFixes(latex);
    }
  }

  // ---------------------------------------------------------------------
  // verse_args_to_str
  // ---------------------------------------------------------------------

  function Open(w: Wrap): string {
    match w
    case Italic => "<BEGIN ITALIC>"
    case Bold => "<BEGIN BOLD>"
    case Preformatted => "```"
  }

  function Close(w: Wrap): string {
    match w
    case Italic => "<END ITALIC>"
    case Bold => "<END BOLD>"
    case Preformatted => "```"
  }

  /** The text of a node list, or the exception of its first failing node. */
  function Translation(nodes: seq<Node>): Result<string>
    decreases SizeAll(nodes), 1
  {
    if nodes == [] then Ok("")
    else Then(Translation(nodes[..|nodes| - 1]), NodeTranslation(nodes[|nodes| - 1]))
  }

  /** The text of one node. A command outside the tables or a node of an
      unexpected kind raises `ValueError`; a named environment other than
      chorus and tabular gives nothing. */
  function NodeTranslation(n: Node): Result<string>
    decreases Size(n), 0
  {
    match n
    case Env(name, args, contents) =>
      if name == "chorus" then Around(Open(Italic), Translation(contents), Close(Italic))
      else if name == "tabular" then Translation(Drop(contents, |args|))
      else Ok("")
    case Text(s) => Ok(LatexStrToStr(s))
    case Cmd(name, _, contents) =>
      (match CommandAction(name)
      case Passthrough => Translation(contents)
      case Repeat => Around(":,: ", Translation(contents), " :,: ")
      case Symbol(t) => Ok(t)
      case Suppress => Ok("")
      case RepeatLeft => Around(":,: ", Translation(contents), "")
      case Wrapped(w) => Around(Open(w), Translation(contents), Close(w))
      case NameAsText => Ok(" " + name)
      case Unknown => Err(ValueError))
    case Math(contents) => Translation(contents)
    case Group(contents) => Translation(contents)
    case Other(_, _, _) => Err(ValueError)
  }

  /** Translating a list is translating its parts, in order. */
  lemma {:induction false} TranslationAppend(a: seq<Node>, b: seq<Node>)
    ensures Translation(a + b) == Then(Translation(a), Translation(b))
    decreases |b|
  {
    if b == [] {
      assert a + b == a;
      ThenUnit(Translation(a));
    } else {
      var b', last := b[..|b| - 1], b[|b| - 1];
      assert (a + b)[..|a + b| - 1] == a + b' && (a + b)[|a + b| - 1] == last;
      TranslationAppend(a, b');
      ThenAssoc(Translation(a), Translation(b'), NodeTranslation(last));
    }
  }

  lemma TranslationSingle(n: Node)
    ensures Translation([n]) == NodeTranslation(n)
  {
    assert [n][..0] == [];
    ThenUnit(NodeTranslation(n));
  }

  /** The lists the translator gets through: every node it visits is of a
      known kind. A reference definition independent of the text. */
  predicate AllTranslatable(ns: seq<Node>)
    decreases SizeAll(ns), 1
  {
    ns == [] || (AllTranslatable(ns[..|ns| - 1]) && Translatable(ns[|ns| - 1]))
  }

  predicate Translatable(n: Node)
    decreases Size(n), 0
  {
    match n
    case Env(name, args, contents) =>
      (name == "chorus" ==> AllTranslatable(contents)) &&
      (name == "tabular" ==> AllTranslatable(Drop(contents, |args|)))
    case Text(_) => true
    case Cmd(name, _, contents) =>
      (match CommandAction(name)
      case Unknown => false
      case Symbol(_) => true
      case Suppress => true
      case NameAsText => true
      case _ => AllTranslatable(contents))
    case Math(contents) => AllTranslatable(contents)
    case Group(contents) => AllTranslatable(contents)
    case Other(_, _, _) => false
  }

  /** The translation fails exactly when it meets an unknown node, and then
      always with `ValueError`. */
  lemma {:induction false} TranslationSucceedsIff(ns: seq<Node>)
    ensures Translation(ns).Ok? <==> AllTranslatable(ns)
    ensures Translation(ns).Err? ==> Translation(ns).error == ValueError
    decreases SizeAll(ns), 1
  {
    if ns != [] {
      TranslationSucceedsIff(ns[..|ns| - 1]);
      NodeTranslationSucceedsIff(ns[|ns| - 1]);
    }
  }

  lemma {:induction false} NodeTranslationSucceedsIff(n: Node)
    ensures NodeTranslation(n).Ok? <==> Translatable(n)
    ensures NodeTranslation(n).Err? ==> NodeTranslation(n).error == ValueError
    decreases Size(n), 0
  {
    match n {
      case Env(name, args, contents) =>
        if name == "chorus" {
          TranslationSucceedsIff(contents);
        } else if name == "tabular" {
          TranslationSucceedsIff(Drop(contents, |args|));
        }
      case Text(_) =>
      case Cmd(name, _, contents) =>
        TranslationSucceedsIff(contents);
      case Math(contents) =>
        TranslationSucceedsIff(contents);
      case Group(contents) =>
        TranslationSucceedsIff(contents);
      case Other(_, _, _) =>
    }
  }

  /** One unknown node fails the whole list, whatever surrounds it, unless
      an earlier node already failed. */
  lemma UnknownCommandFailsAll(a: seq<Node>, name: string, args: seq<Node>, contents: seq<Node>, b: seq<Node>)
    requires name !in KnownCommands
    ensures Translation(a + [Cmd(name, args, contents)] + b).Err?
    ensures Translation(a).Ok? ==> Translation(a + [Cmd(name, args, contents)] + b) == Err(ValueError)
  {
    var n := Cmd(name, args, contents);
    assert Translation([n]) == Err(ValueError) by { TranslationSingle(n); }
    assert Translation(a + [n]) == Then(Translation(a), Translation([n])) by { TranslationAppend(a, [n]); }
    assert Translation(a + [n] + b) == Then(Translation(a + [n]), Translation(b)) by { TranslationAppend(a + [n], b); }
  }

  /** The markers each recognised node puts around its content. */
  lemma {:induction false} MarkupRules(n: Node)
    ensures n.Env? && n.name == "chorus" ==>
      Translation([n]) == Around("<BEGIN ITALIC>", Translation(n.contents), "<END ITALIC>")
    ensures n.Cmd? && n.name == "textit" ==>
      Translation([n]) == Around("<BEGIN ITALIC>", Translation(n.contents), "<END ITALIC>")
    ensures n.Cmd? && n.name == "emph" ==>
      Translation([n]) == Around("<BEGIN BOLD>", Translation(n.contents), "<END BOLD>")
    ensures n.Cmd? && n.name == "sourcecodepro" ==>
      Translation([n]) == Around("```", Translation(n.contents), "```")
    ensures n.Cmd? && n.name == "srepeat" ==>
      Translation([n]) == Around(":,: ", Translation(n.contents), " :,: ")
    ensures n.Env? && n.name !in {"chorus", "tabular"} ==> Translation([n]) == Ok("")
  {
    TranslationSingle(n);
  }

  /** The nodes that pass their content through, drop it, or print a word. */
  lemma {:induction false} ContentRules(n: Node)
    ensures n.Env? && n.name == "tabular" ==>
      Translation([n]) == Translation(if |n.args| <= |n.contents| then n.contents[|n.args|..] else [])
    ensures n.Cmd? && n.name == "srepeatleft" ==> Translation([n]) == Around(":,: ", Translation(n.contents), "")
    ensures n.Cmd? && n.name in IgnoreFormatting ==> Translation([n]) == Translation(n.contents)
    ensures n.Cmd? && n.name in Ignore ==> Translation([n]) == Ok("")
    ensures n.Cmd? && n.name in HandleAsLiteral ==> Translation([n]) == Ok(" " + n.name)
    ensures (n.Math? || n.Group?) ==> Translation([n]) == Translation(n.contents)
  {
    TranslationSingle(n);
  }

  /** The commands that stand for a fixed symbol. */
  lemma {:induction false} SymbolRules(name: string, args: seq<Node>, contents: seq<Node>)
    ensures name == "times" ==> Translation([Cmd(name, args, contents)]) == Ok("\U{D7}")
    ensures name in {"ldots", "dots", "cdots"} ==> Translation([Cmd(name, args, contents)]) == Ok("...")
    ensures name == "epsilon" ==> Translation([Cmd(name, args, contents)]) == Ok("\U{3B5}")
  {
    TranslationSingle(Cmd(name, args, contents));
  }

  /** `verse_args_to_str`: builds the text node by node and stops at the
      first node that raises. */
  method VerseArgsToStr(latexLines: seq<Node>) returns (out: Result<string>)
    ensures out == Translation(latexLines)
    decreases SizeAll(latexLines), 1
  {
    var text := "";
    for i := 0 to |latexLines|
      invariant Translation(latexLines[..i]) == Ok(text)
    {
      assert latexLines[..i + 1][..i] == latexLines[..i];
      SizeAllElement(latexLines, i);
      var r := LineToStr(latexLines[i]);
      if r.Err? {
        FirstErrorWins(latexLines, i + 1);
        return r;
      }
      text := text + r.value;
    }
    assert latexLines[..|latexLines|] == latexLines;
    out := Ok(text);
  }

  /** Once a prefix of the list has failed, the list fails the same way. */
  lemma FirstErrorWins(ns: seq<Node>, i: nat)
    requires i <= |ns| && Translation(ns[..i]).Err?
    ensures Translation(ns) == Translation(ns[..i])
  {
    assert ns == ns[..i] + ns[i..];
    TranslationAppend(ns[..i], ns[i..]);
  }

  /** One iteration of `verse_args_to_str`. */
  method LineToStr(line: Node) returns (out: Result<string>)
    ensures out == NodeTranslation(line)
    decreases Size(line), 0
  {
    out := Ok("");
    match line {
      case Env(name, args, contents) =>
        if name == "chorus" {
          var inner := VerseArgsToStr(contents);
          out := Around(Open(Italic), inner, Close(Italic));
        } else if name == "tabular" {
          out := VerseArgsToStr(Drop(contents, |args|));
        }
      case Text(s) =>
        out := Ok(LatexStrToStr(s));
      case Cmd(name, _, contents) =>
        match CommandAction(name) {
          case Passthrough =>
            out := VerseArgsToStr(contents);
          case Repeat =>
            var inner := VerseArgsToStr(contents);
            out := Around(":,: ", inner, " :,: ");
          case Symbol(t) =>
            out := Ok(t);
          case Suppress =>
          case RepeatLeft =>
            var inner := VerseArgsToStr(contents);
            out := Around(":,: ", inner, "");
          case Wrapped(w) =>
            var inner := VerseArgsToStr(contents);
            out := Around(Open(w), inner, Close(w));
          case NameAsText =>
            out := Ok(" " + name);
          case Unknown =>
            out := Err(ValueError);
        }
      case Math(contents) =>
        out := VerseArgsToStr(contents);
      case Group(contents) =>
        out := VerseArgsToStr(contents);
      case Other(_, _, _) =>
        out := Err(ValueError);
    }
  }

  // ---------------------------------------------------------------------
  // handle_uverse, handle_verses
  // ---------------------------------------------------------------------

  /** The text of an unnumbered verse; its assertions demand exactly one
      argument, a brace group. */
  function HandleUverse(uverse: Node): (r: Result<string>)
    ensures r == Err(AssertionError) <==> !(|Args(uverse)| == 1 && Args(uverse)[0].Group?)
    ensures r.Ok? ==> AllTranslatable(Args(uverse)[0].contents)
    ensures |Args(uverse)| == 1 && Args(uverse)[0].Group? ==> r == Translation(Args(uverse)[0].contents)
  {
    if |Args(uverse)| == 1 && Args(uverse)[0].Group? then
      var r := Translation(Args(uverse)[0].contents);
      TranslationSucceedsIff(Args(uverse)[0].contents);
      r
    else Err(AssertionError)
  }

  /** The lyrics of a song body, or the exception of the first body node
      that raises. */
  function Lyrics(content: seq<Node>): Result<string>
    decreases SizeAll(content), 1
  {
    if content == [] then Ok("")
    else Then(Lyrics(content[..|content| - 1]), VerseText(content[|content| - 1]))
  }

  /** What one body node contributes. A text token has no `name`; a subsong
      needs a first content item, and that item must be a string to be
      joined to the title markers. */
  function VerseText(c: Node): Result<string>
    decreases Size(c), 0
  {
    match Name(c)
    case None => Err(AttributeError)
    case Some(name) =>
      if name in SkipVerseTypes then Ok("")
      else if name == "samepage" then Lyrics(Contents(c))
      else if name == "uverse" then Around("", HandleUverse(c), "\n")
      else if name == "subsong" then
        if |Contents(c)| == 0 then Err(IndexError)
        else if !Contents(c)[0].Text? then Err(TypeError)
        else Around("[ITALIC]" + Contents(c)[0].text + "[END ITALIC]\n", Lyrics(NonText(Contents(c))), "\n")
      else Err(ValueError)
  }

  lemma {:induction false} LyricsAppend(a: seq<Node>, b: seq<Node>)
    ensures Lyrics(a + b) == Then(Lyrics(a), Lyrics(b))
    decreases |b|
  {
    if b == [] {
      assert a + b == a;
      ThenUnit(Lyrics(a));
    } else {
      var b', last := b[..|b| - 1], b[|b| - 1];
      assert (a + b)[..|a + b| - 1] == a + b' && (a + b)[|a + b| - 1] == last;
      LyricsAppend(a, b');
      ThenAssoc(Lyrics(a), Lyrics(b'), VerseText(last));
    }
  }

  lemma LyricsSingle(c: Node)
    ensures Lyrics([c]) == VerseText(c)
  {
    assert [c][..0] == [];
    ThenUnit(VerseText(c));
  }

  lemma LyricsAround(a: seq<Node>, c: Node, b: seq<Node>)
    ensures Lyrics(a + [c] + b) == Then(Then(Lyrics(a), VerseText(c)), Lyrics(b))
  {
    LyricsAppend(a + [c], b);
    LyricsAppend(a, [c]);
    LyricsSingle(c);
  }

  /** A text token in the body fails the song with `AttributeError`, unless
      an earlier node already failed. */
  lemma TextInBodyFails(a: seq<Node>, s: string, b: seq<Node>)
    requires Lyrics(a).Ok?
    ensures Lyrics(a + [Text(s)] + b) == Err(AttributeError)
  {
    LyricsAround(a, Text(s), b);
  }

  /** A body node of a name outside the skip set and the three handled
      names fails the song with `ValueError`, unless an earlier node did. */
  lemma UnknownVerseFails(a: seq<Node>, c: Node, b: seq<Node>)
    requires Lyrics(a).Ok?
    requires Name(c).Some? && Name(c).value !in SkipVerseTypes
    requires Name(c).value !in {"samepage", "uverse", "subsong"}
    ensures Lyrics(a + [c] + b) == Err(ValueError)
  {
    LyricsAround(a, c, b);
  }

  /** A node of the skip set contributes nothing and leaves the rest as it is. */
  lemma SkippedVerseIsIsolated(a: seq<Node>, c: Node, b: seq<Node>)
    requires Name(c).Some? && Name(c).value in SkipVerseTypes
    ensures Lyrics(a + [c] + b) == Then(Lyrics(a), Lyrics(b))
  {
    LyricsAround(a, c, b);
    assert VerseText(c) == Ok("");
    var x := Lyrics(a);
    if x.Ok? {
      assert x.value + "" == x.value;
    }
  }

  /** A samepage container is transparent. */
  lemma SamepageIsTransparent(a: seq<Node>, c: Node, b: seq<Node>)
    requires Name(c) == Some("samepage")
    ensures Lyrics(a + [c] + b) == Then(Then(Lyrics(a), Lyrics(Contents(c))), Lyrics(b))
  {
    LyricsAround(a, c, b);
  }

  /** What a verse and a subsong contribute, and how they fail. */
  lemma UverseRule(c: Node)
    requires Name(c) == Some("uverse")
    ensures Lyrics([c]) == Around("", HandleUverse(c), "\n")
  {
    LyricsSingle(c);
  }

  lemma SubsongRule(c: Node)
    requires Name(c) == Some("subsong")
    ensures |Contents(c)| == 0 ==> Lyrics([c]) == Err(IndexError)
    ensures |Contents(c)| > 0 && !Contents(c)[0].Text? ==> Lyrics([c]) == Err(TypeError)
    ensures |Contents(c)| > 0 && Contents(c)[0].Text? ==>
      Lyrics([c]) == Around("[ITALIC]" + Contents(c)[0].text + "[END ITALIC]\n", Lyrics(NonText(Contents(c))), "\n")
  {
    LyricsSingle(c);
  }

  /** `handle_verses`: walks the body node by node and stops at the first
      node that raises. */
  method HandleVerses(content: seq<Node>) returns (out: Result<string>)
    ensures out == Lyrics(content)
    decreases SizeAll(content), 1
  {
    var text := "";
    for i := 0 to |content|
      invariant Lyrics(content[..i]) == Ok(text)
    {
      assert content[..i + 1][..i] == content[..i];
      SizeAllElement(content, i);
      var r := VerseToStr(content[i]);
      if r.Err? {
        LyricsFirstErrorWins(content, i + 1);
        return r;
      }
      text := text + r.value;
    }
    assert content[..|content|] == content;
    out := Ok(text);
  }

  lemma LyricsFirstErrorWins(ns: seq<Node>, i: nat)
    requires i <= |ns| && Lyrics(ns[..i]).Err?
    ensures Lyrics(ns) == Lyrics(ns[..i])
  {
    assert ns == ns[..i] + ns[i..];
    LyricsAppend(ns[..i], ns[i..]);
  }

  /** One iteration of `handle_verses`. */
  method VerseToStr(c: Node) returns (out: Result<string>)
    ensures out == VerseText(c)
    decreases Size(c), 0
  {
    if c.Text? {
      return Err(AttributeError);
    }
    var name := Name(c).value;
    if name in SkipVerseTypes {
      return Ok("");
    }
    if name == "samepage" {
      out := HandleVerses(Contents(c));
    } else if name == "uverse" {
      var verse := HandleUverse(c);
      out := Around("", verse, "\n");
    } else if name == "subsong" {
      var verses := NonText(Contents(c));
      if |Contents(c)| == 0 {
        return Err(IndexError);
      }
      var title := Contents(c)[0];
      if !title.Text? {
        return Err(TypeError);
      }
      var inner := HandleVerses(verses);
      out := Around("[ITALIC]" + title.text + "[END ITALIC]\n", inner, "\n");
    } else {
      out := Err(ValueError);
    }
  }

  // ---------------------------------------------------------------------
  // parse_tex
  // ---------------------------------------------------------------------

  /** The record of the older extractor: its fields hold the parsed items
      themselves (a string token or a node), not their text. */
  datatype SongInfo = SongInfo(
    name: Node,
    melody: Option<Node>,
    composer: Option<Node>,
    arranger: Option<Node>,
    lyrics: string)

  /** `x.contents[0] if x and x.contents else None` for a padded slot: an
      absent slot or an empty string is falsy, a non-empty string has no
      `contents`, and a node is truthy. */
  function MetaField(arg: Option<Node>): Result<Option<Node>> {
    match arg
    case None => Ok(None)
    case Some(n) =>
      if n.Text? then (if n.text == "" then Ok(None) else Err(AttributeError))
      else if |Contents(n)| == 0 then Ok(None)
      else Ok(Some(Contents(n)[0]))
  }

  /** `name.contents[0]`, with no default. */
  function NameField(arg: Option<Node>): (r: Result<Node>)
    ensures r.Ok? <==> arg.Some? && !arg.value.Text? && |Contents(arg.value)| > 0
  {
    match arg
    case None => Err(AttributeError)
    case Some(n) =>
      if n.Text? then Err(AttributeError)
      else if |Contents(n)| == 0 then Err(IndexError)
      else Ok(Contents(n)[0])
  }

  /** `parse_tex`, from the song environment the parser found (`None` when
      there is none). The fields are evaluated in order, so the first
      failing one decides the exception. */
  function ParseTex(song: Option<SongEnv>): (r: Result<SongInfo>)
    ensures song.None? ==> r == Err(AttributeError)
    ensures r.Ok? ==>
      && NameField(Slot(song.value.args, 0)) == Ok(r.value.name)
      && MetaField(Slot(song.value.args, 1)) == Ok(r.value.melody)
      && MetaField(Slot(song.value.args, 5)) == Ok(r.value.composer)
      && MetaField(Slot(song.value.args, 6)) == Ok(r.value.arranger)
      && Lyrics(song.value.children) == Ok(r.value.lyrics)
  {
    match song
    case None => Err(AttributeError)
    case Some(SongEnv(args, children)) =>
      var name := NameField(Slot(args, 0));
      var melody := MetaField(Slot(args, 1));
      var composer := MetaField(Slot(args, 5));
      var arranger := MetaField(Slot(args, 6));
      var lyrics := Lyrics(children);
      if name.Err? then Err(name.error)
      else if melody.Err? then Err(melody.error)
      else if composer.Err? then Err(composer.error)
      else if arranger.Err? then Err(arranger.error)
      else if lyrics.Err? then Err(lyrics.error)
      else Ok(SongInfo(name.value, melody.value, composer.value, arranger.value, lyrics.value))
  }

  /** A song parses exactly when its name slot holds a node with content,
      its metadata slots hold no non-empty string, and its body translates. */
  lemma ParseTexSucceedsIff(song: SongEnv)
    ensures ParseTex(Some(song)).Ok? <==>
      && NameField(Slot(song.args, 0)).Ok?
      && MetaField(Slot(song.args, 1)).Ok?
      && MetaField(Slot(song.args, 5)).Ok?
      && MetaField(Slot(song.args, 6)).Ok?
      && Lyrics(song.children).Ok?
  {
  }

  /** A song without a title argument fails; one whose first argument is an
      empty group fails with `IndexError`. */
  lemma NamelessSongFails(children: seq<Node>)
    ensures ParseTex(Some(SongEnv([], children))) == Err(AttributeError)
    ensures ParseTex(Some(SongEnv([Group([])], children))) == Err(IndexError)
  {
  }
}
