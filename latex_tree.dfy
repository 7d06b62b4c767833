/** The parsed LaTeX tree both song extractors read, and the command tables
    they share. The tree is produced by the TeX parser, which is not part of
    this model: it is the input. */
module LatexTree {
  import opened Python

  /** One item of a node list as the parser hands it over. */
  datatype Node =
    | Text(text: string)                                         // a raw text token (a Python `str`)
    | Cmd(name: string, args: seq<Node>, contents: seq<Node>)    // a command such as `\emph{...}`
    | Env(name: string, args: seq<Node>, contents: seq<Node>)    // a named environment `\begin{name}...`
    | Math(contents: seq<Node>)                                  // inline math `$...$`
    | Group(contents: seq<Node>)                                 // a brace group `{...}`
    | Other(name: string, args: seq<Node>, contents: seq<Node>)  // any other node kind (`[...]`, `$$...$$`, ...)

  /** The node's `name` attribute; a text token has none. */
  function Name(n: Node): (r: Option<string>)
    ensures r.None? <==> n.Text?
  {
    match n
    case Text(_) => None
    case Cmd(name, _, _) => Some(name)
    case Env(name, _, _) => Some(name)
    case Math(_) => Some("$")
    case Group(_) => Some("BraceGroup")
    case Other(name, _, _) => Some(name)
  }

  /** The node's `args`. */
  function Args(n: Node): (r: seq<Node>)
    ensures SizeAll(r) < Size(n)
  {
    match n
    case Cmd(_, args, _) => args
    case Env(_, args, _) => args
    case Other(_, args, _) => args
    case _ => []
  }

  /** The node's `contents`. */
  function Contents(n: Node): (r: seq<Node>)
    ensures SizeAll(r) < Size(n)
  {
    match n
    case Text(_) => []
    case Cmd(_, _, contents) => contents
    case Env(_, _, contents) => contents
    case Math(contents) => contents
    case Group(contents) => contents
    case Other(_, _, contents) => contents
  }

  /** `str(n)`: a text token is its own string; for any other node the
      parser's rendering of it back to LaTeX source, which is given. */
  function Str(n: Node, render: Node -> string): string {
    if n.Text? then n.text else render(n)
  }

  /** The number of nodes in a tree: the termination measure for the
      traversals, which recurse into filtered and sliced child lists. */
  ghost function Size(n: Node): (s: nat)
    ensures s >= 1
  {
    match n
    case Text(_) => 1
    case Cmd(_, args, contents) => 1 + SizeAll(args) + SizeAll(contents)
    case Env(_, args, contents) => 1 + SizeAll(args) + SizeAll(contents)
    case Math(contents) => 1 + SizeAll(contents)
    case Group(contents) => 1 + SizeAll(contents)
    case Other(_, args, contents) => 1 + SizeAll(args) + SizeAll(contents)
  }

  ghost function SizeAll(ns: seq<Node>): nat {
    if ns == [] then 0 else SizeAll(ns[..|ns| - 1]) + Size(ns[|ns| - 1])
  }

  lemma {:induction false} SizeAllElement(ns: seq<Node>, i: nat)
    requires i < |ns|
    ensures Size(ns[i]) <= SizeAll(ns)
    decreases |ns|
  {
    if i < |ns| - 1 {
      SizeAllElement(ns[..|ns| - 1], i);
    }
  }

  /** `ns[k:]` for a non-negative `k`. */
  function Drop(ns: seq<Node>, k: nat): (r: seq<Node>)
    ensures SizeAll(r) <= SizeAll(ns)
  {
    SizeAllSuffix(ns, k);
    if k <= |ns| then ns[k..] else []
  }

  lemma {:induction false} SizeAllSuffix(ns: seq<Node>, k: nat)
    ensures k <= |ns| ==> SizeAll(ns[k..]) <= SizeAll(ns)
    decreases |ns|
  {
    if k < |ns| {
      var last := |ns| - 1;
      assert ns[k..][..|ns[k..]| - 1] == ns[..last][k..];
      SizeAllSuffix(ns[..last], k);
    } else if k == |ns| {
      assert ns[k..] == [];
    }
  }

  /** `[a for a in ns if isinstance(a, TexNode)]`: the list without its
      text tokens, in order. */
  function NonText(ns: seq<Node>): (r: seq<Node>)
    ensures SizeAll(r) <= SizeAll(ns)
    ensures forall x :: x in r ==> x in ns && !x.Text?
    ensures forall x :: x in ns && !x.Text? ==> x in r
  {
    if ns == [] then []
    else
      var init, last := ns[..|ns| - 1], ns[|ns| - 1];
      assert ns == init + [last];
      var r := NonText(init);
      if last.Text? then r
      else
        assert (r + [last])[..|r|] == r;
        r + [last]
  }

  /** The filter keeps order and multiplicity: it distributes over
      concatenation and keeps a single item exactly when it is not text. */
  lemma {:induction false} NonTextAppend(a: seq<Node>, b: seq<Node>)
    ensures NonText(a + b) == NonText(a) + NonText(b)
    decreases |b|
  {
    if b == [] {
      assert a + b == a;
    } else {
      var init, last := b[..|b| - 1], b[|b| - 1];
      assert (a + b)[..|a + b| - 1] == a + init && (a + b)[|a + b| - 1] == last;
      NonTextAppend(a, init);
    }
  }

  lemma NonTextSingle(x: Node)
    ensures NonText([x]) == if x.Text? then [] else [x]
  {
    assert [x][..0] == [];
  }

  /** The song environment the parser found (`t.song or t.hymnisong`):
      its positional arguments and its child nodes. */
  datatype SongEnv = SongEnv(args: seq<Node>, children: seq<Node>)

  /** Positional argument `i` of a song, as `song.args + [None] * 10`
      unpacks it: `None` past the given arguments. */
  function Slot(args: seq<Node>, i: nat): Option<Node> {
    if i < |args| then Some(args[i]) else None
  }

  // The command tables, which both extractor versions define identically.

  const HandleAsLiteral: set<string> := {"pyk\U{E4}l\U{E4}"}
  const Ignore: set<string> := {"raisebox", "hspace*", "vspace", "mbox"}
  const IgnoreFormatting: set<string> := {"oldstylenums", "textsc", "scriptsize", "mathbf"}

  /** Verse-level node names that the song-body walk drops. */
  const SkipVerseTypes: set<string> :=
    {"raisebox", "scriptsize", "wrapfigure", "trad.", "pagebreak", "newline", "BraceGroup", "vspace*"}

  /** The light markup a command can wrap its content in. */
  datatype Wrap = Italic | Bold | Preformatted

  /** What the translator does with a command. */
  datatype Action =
    | Passthrough          // translate the content, drop the command
    | Repeat               // a musical repeat around the content
    | RepeatLeft           // only the opening repeat marker, then the content
    | Symbol(text: string) // a fixed string
    | Suppress             // nothing at all
    | Wrapped(kind: Wrap)  // the content inside a markup pair
    | NameAsText           // a space and the command's own name
    | Unknown              // not in any table

  /** The names the translator's if-chain recognises. */
  const KnownCommands: set<string> :=
    IgnoreFormatting + Ignore + HandleAsLiteral +
    {"srepeat", "times", "srepeatleft", "ldots", "dots", "textit", "emph",
     "sourcecodepro", "cdots", "epsilon"}

  /** The translator's command dispatch, checked in the order of the source. */
  function CommandAction(name: string): (a: Action)
    ensures a.Unknown? <==> name !in KnownCommands
    ensures a.Passthrough? <==> name in IgnoreFormatting
    ensures a.Suppress? <==> name in Ignore
    ensures a.NameAsText? <==> name in HandleAsLiteral
  {
    if name in IgnoreFormatting then Passthrough
    else if name == "srepeat" then Repeat
    else if name == "times" then Symbol("\U{D7}")
    else if name in Ignore then Suppress
    else if name == "srepeatleft" then RepeatLeft
    else if name == "ldots" || name == "dots" then Symbol("...")
    else if name == "textit" then Wrapped(Italic)
    else if name == "emph" then Wrapped(Bold)
    else if name in HandleAsLiteral then NameAsText
    else if name == "sourcecodepro" then Wrapped(Preformatted)
    else if name == "cdots" then Symbol("...")
    else if name == "epsilon" then Symbol("\U{3B5}")
    else Unknown
  }
}
