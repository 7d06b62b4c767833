/** The pure helpers of the song bot (`fiisubot.py`): the in-memory song
    search, the removal of HTML tags, message truncation, and the splitting
    of a long message into chunks that fit one chat message. */
module FiisuBot {
  import opened Python

  // ---------------------------------------------------------------------
  // SongDatabase.search
  // ---------------------------------------------------------------------

  /** One song record as loaded from the song file: field name to text. */
  datatype SongEntry = SongEntry(fields: map<string, string>)

  /** `song.get(key, "")` */
  function Get(song: SongEntry, key: string): string {
    if key in song.fields then song.fields[key] else ""
  }

  /** A song's relevance for a lowercased query: 10 for a hit in the
      lowercased name, plus 1 for a hit in the lowercased lyrics. `lower`
      stands for Python's `str.lower`. */
  function Score(song: SongEntry, q: string, lower: string -> string): (r: int)
    ensures r in {0, 1, 10, 11}
    ensures r >= 10 <==> Contains(lower(Get(song, "name")), q)
    ensures r % 10 == 1 <==> Contains(lower(Get(song, "lyrics")), q)
  {
    (if Contains(lower(Get(song, "name")), q) then 10 else 0) +
    (if Contains(lower(Get(song, "lyrics")), q) then 1 else 0)
  }

  /** A scored match: `(score, song)`. */
  type Match = (int, SongEntry)

  /** The `matches` list: the songs with a positive score, in database order. */
  function Matches(songs: seq<SongEntry>, q: string, lower: string -> string): (ms: seq<Match>)
    ensures |ms| <= |songs|
    ensures forall m :: m in ms ==> m.1 in songs && m.0 == Score(m.1, q, lower) && m.0 > 0
  {
    if songs == [] then []
    else
      var last := songs[|songs| - 1];
      var s := Score(last, q, lower);
      Matches(songs[..|songs| - 1], q, lower) + (if s > 0 then [(s, last)] else [])
  }

  /** One more song extends the matches by that song when it scores. */
  lemma MatchesStep(songs: seq<SongEntry>, q: string, lower: string -> string, i: nat)
    requires i < |songs|
    ensures var s := Score(songs[i], q, lower);
      Matches(songs[..i + 1], q, lower) == Matches(songs[..i], q, lower) + (if s > 0 then [(s, songs[i])] else [])
  {
    assert songs[..i + 1][..i] == songs[..i];
  }

  /** A song with a positive score is among the matches. */
  lemma {:induction false} MatchesComplete(songs: seq<SongEntry>, q: string, lower: string -> string, i: nat)
    requires i < |songs| && Score(songs[i], q, lower) > 0
    ensures (Score(songs[i], q, lower), songs[i]) in Matches(songs, q, lower)
    decreases |songs|
  {
    if i < |songs| - 1 {
      var init := songs[..|songs| - 1];
      assert init[i] == songs[i];
      MatchesComplete(init, q, lower, i);
    }
  }

  // Python's `list.sort(reverse=True, key=score)`: descending by score, and
  // stable, so equal scores keep their order.

  /** Puts `x` before the first element whose score is not greater. */
  function Insert(x: Match, s: seq<Match>): (r: seq<Match>)
    ensures multiset(r) == multiset(s) + multiset{x}
  {
    if s == [] || s[0].0 <= x.0 then [x] + s
    else
      assert s == [s[0]] + s[1..];
      [s[0]] + Insert(x, s[1..])
  }

  function Sort(ms: seq<Match>): (r: seq<Match>)
    ensures multiset(r) == multiset(ms)
  {
    if ms == [] then []
    else
      assert ms == [ms[0]] + ms[1..];
      Insert(ms[0], Sort(ms[1..]))
  }

  predicate Descending(ms: seq<Match>) {
    forall i, j :: 0 <= i < j < |ms| ==> ms[i].0 >= ms[j].0
  }

  lemma {:induction false} InsertDescending(x: Match, s: seq<Match>)
    requires Descending(s)
    ensures Descending(Insert(x, s))
    decreases |s|
  {
    if s != [] && s[0].0 > x.0 {
      InsertDescending(x, s[1..]);
      var r := Insert(x, s[1..]);
      assert forall m :: m in r ==> m.0 <= s[0].0 by {
        forall m | m in r ensures m.0 <= s[0].0 {
          assert m in multiset(r);
          if m != x {
            assert m in multiset(s[1..]);
            var t :| 0 <= t < |s| - 1 && s[1..][t] == m;
            assert s[t + 1] == m;
          }
        }
      }
      assert forall j :: 0 < j < |r| + 1 ==> ([s[0]] + r)[j] == r[j - 1];
    }
  }

  lemma {:induction false} SortDescending(ms: seq<Match>)
    ensures Descending(Sort(ms))
    decreases |ms|
  {
    if ms != [] {
      SortDescending(ms[1..]);
      InsertDescending(ms[0], Sort(ms[1..]));
    }
  }

  /** The matches of one score, in order. */
  function WithScore(ms: seq<Match>, k: int): (r: seq<Match>)
    ensures forall m :: m in r ==> m in ms && m.0 == k
  {
    if ms == [] then []
    else (if ms[0].0 == k then [ms[0]] else []) + WithScore(ms[1..], k)
  }

  lemma {:induction false} InsertStable(x: Match, s: seq<Match>, k: int)
    ensures WithScore(Insert(x, s), k) == (if x.0 == k then [x] else []) + WithScore(s, k)
    decreases |s|
  {
    var own: seq<Match> := if x.0 == k then [x] else [];
    if s != [] && s[0].0 > x.0 {
      var r := Insert(x, s[1..]);
      var head: seq<Match> := if s[0].0 == k then [s[0]] else [];
      assert WithScore(r, k) == own + WithScore(s[1..], k) by { InsertStable(x, s[1..], k); }
      assert WithScore(Insert(x, s), k) == head + WithScore(r, k) by {
        assert Insert(x, s) == [s[0]] + r;
        WithScoreCons(s[0], r, k);
      }
      assert WithScore(s, k) == head + WithScore(s[1..], k) by {
        assert s == [s[0]] + s[1..];
        WithScoreCons(s[0], s[1..], k);
      }
      assert head == [] || own == [];
    } else {
      WithScoreCons(x, s, k);
    }
  }

  lemma WithScoreCons(m: Match, s: seq<Match>, k: int)
    ensures WithScore([m] + s, k) == (if m.0 == k then [m] else []) + WithScore(s, k)
  {
    assert ([m] + s)[1..] == s;
  }

  /** The sort is stable: the matches of each score keep their order. */
  lemma {:induction false} SortStable(ms: seq<Match>, k: int)
    ensures WithScore(Sort(ms), k) == WithScore(ms, k)
    decreases |ms|
  {
    if ms != [] {
      SortStable(ms[1..], k);
      InsertStable(ms[0], Sort(ms[1..]), k);
    }
  }

  /** Cutting the list cuts each score's sub-list to a prefix of it. */
  lemma {:induction false} WithScorePrefix(ms: seq<Match>, n: nat, k: int)
    requires n <= |ms|
    ensures IsPrefix(WithScore(ms[..n], k), WithScore(ms, k))
    decreases n
  {
    if n > 0 {
      assert ms[..n][1..] == ms[1..][..n - 1];
      WithScorePrefix(ms[1..], n - 1, k);
    }
  }

  /** `[song for _, song in ms]` */
  function SongsOf(ms: seq<Match>): (r: seq<SongEntry>)
    ensures |r| == |ms| && forall i :: 0 <= i < |ms| ==> r[i] == ms[i].1
  {
    seq(|ms|, i requires 0 <= i < |ms| => ms[i].1)
  }

  /** The ranked matches of a query that is not blank. */
  function Ranked(songs: seq<SongEntry>, query: string, lower: string -> string): seq<Match> {
    Sort(Matches(songs, lower(query), lower))
  }

  /** What `search` returns. */
  function SearchResult(songs: seq<SongEntry>, query: string, limit: int, lower: string -> string): seq<SongEntry> {
    if AllSpace(query) then Prefix(songs, limit)
    else SongsOf(Prefix(Ranked(songs, query, lower), limit))
  }

  lemma PrefixIsPrefix<T>(s: seq<T>, n: int)
    ensures IsPrefix(Prefix(s, n), s)
    ensures n >= 0 ==> |Prefix(s, n)| == if n <= |s| then n else |s|
    ensures n < 0 ==> |Prefix(s, n)| == if |s| + n >= 0 then |s| + n else 0
  {
  }

  /** Every song found for a non-blank query holds the lowercased query in
      its lowercased name or lyrics; no more than `limit` are returned, and
      the scores never increase along the result. */
  lemma SearchFindsMatches(songs: seq<SongEntry>, query: string, limit: int, lower: string -> string)
    requires !AllSpace(query)
    ensures var r := SearchResult(songs, query, limit, lower);
      && |r| <= |songs|
      && (limit >= 0 ==> |r| <= limit)
      && forall s :: s in r ==>
           s in songs &&
           (Contains(lower(Get(s, "name")), lower(query)) || Contains(lower(Get(s, "lyrics")), lower(query)))
  {
    var ms := Matches(songs, lower(query), lower);
    var ranked := Ranked(songs, query, lower);
    var p := Prefix(ranked, limit);
    PrefixIsPrefix(ranked, limit);
    assert |ranked| == |ms| by {
      assert |multiset(ranked)| == |multiset(ms)|;
    }
    forall s | s in SongsOf(p)
      ensures s in songs
      ensures Contains(lower(Get(s, "name")), lower(query)) || Contains(lower(Get(s, "lyrics")), lower(query))
    {
      var i :| 0 <= i < |p| && SongsOf(p)[i] == s;
      assert p[i] == ranked[i];
      assert p[i] in multiset(ms);
    }
  }

  /** The result is ordered by score, best first. */
  lemma SearchRanksByScore(songs: seq<SongEntry>, query: string, limit: int, lower: string -> string)
    requires !AllSpace(query)
    ensures var r := SearchResult(songs, query, limit, lower);
      forall i, j :: 0 <= i < j < |r| ==>
        Score(r[i], lower(query), lower) >= Score(r[j], lower(query), lower)
  {
    var ms := Matches(songs, lower(query), lower);
    var ranked := Ranked(songs, query, lower);
    var p := Prefix(ranked, limit);
    PrefixIsPrefix(ranked, limit);
    SortDescending(ms);
    forall i, j | 0 <= i < j < |p|
      ensures Score(p[i].1, lower(query), lower) >= Score(p[j].1, lower(query), lower)
    {
      assert p[i] == ranked[i] && p[j] == ranked[j];
      assert ranked[i] in multiset(ms) && ranked[j] in multiset(ms);
    }
  }

  /** Songs of equal score come in database order: for each score, the
      result's songs of that score are the first ones of the database's. */
  lemma SearchKeepsTies(songs: seq<SongEntry>, query: string, limit: int, lower: string -> string, k: int)
    requires !AllSpace(query)
    ensures var ms := Matches(songs, lower(query), lower);
      IsPrefix(WithScore(Prefix(Ranked(songs, query, lower), limit), k), WithScore(ms, k))
  {
    var ms := Matches(songs, lower(query), lower);
    var ranked := Ranked(songs, query, lower);
    PrefixIsPrefix(ranked, limit);
    var p := Prefix(ranked, limit);
    assert p == ranked[..|p|];
    WithScorePrefix(ranked, |p|, k);
    SortStable(ms, k);
  }

  /** A matching song is left out only when `limit` better-or-equal songs
      were found first. */
  lemma SearchIsTopK(songs: seq<SongEntry>, query: string, limit: int, lower: string -> string, i: nat)
    requires !AllSpace(query) && limit >= 0
    requires i < |songs| && Score(songs[i], lower(query), lower) > 0
    requires songs[i] !in SearchResult(songs, query, limit, lower)
    ensures |SearchResult(songs, query, limit, lower)| == limit
    ensures forall s :: s in SearchResult(songs, query, limit, lower) ==>
      Score(s, lower(query), lower) >= Score(songs[i], lower(query), lower)
  {
    var q := lower(query);
    var ranked := Ranked(songs, query, lower);
    var x := (Score(songs[i], q, lower), songs[i]);
    assert x in multiset(ranked) by { MatchesComplete(songs, q, lower, i); }
    var j :| 0 <= j < |ranked| && ranked[j] == x;
    RankedOut(songs, query, limit, lower, j);
  }

  /** The same, for the song ranked at `j`. */
  lemma RankedOut(songs: seq<SongEntry>, query: string, limit: int, lower: string -> string, j: nat)
    requires !AllSpace(query) && limit >= 0
    requires j < |Ranked(songs, query, lower)|
    requires Ranked(songs, query, lower)[j].1 !in SearchResult(songs, query, limit, lower)
    ensures |SearchResult(songs, query, limit, lower)| == limit
    ensures forall s :: s in SearchResult(songs, query, limit, lower) ==>
      Score(s, lower(query), lower) >= Ranked(songs, query, lower)[j].0
  {
    var ranked := Ranked(songs, query, lower);
    var p := Prefix(ranked, limit);
    assert p == ranked[..|p|] && |p| == if limit <= |ranked| then limit else |ranked| by {
      PrefixIsPrefix(ranked, limit);
    }
    assert SearchResult(songs, query, limit, lower) == SongsOf(p);
    assert j >= |p| by { NotInResult(p, j, ranked[j].1); }
    RankedHead(songs, lower(query), lower, |p|, j);
  }

  /** Every song ranked before position `j` scores at least as much as the
      one at `j`. */
  lemma RankedHead(songs: seq<SongEntry>, q: string, lower: string -> string, n: nat, j: nat)
    requires n <= j < |Sort(Matches(songs, q, lower))|
    ensures var ranked := Sort(Matches(songs, q, lower));
      forall s :: s in SongsOf(ranked[..n]) ==> Score(s, q, lower) >= ranked[j].0
  {
    var ms := Matches(songs, q, lower);
    var ranked := Sort(ms);
    SortDescending(ms);
    forall s | s in SongsOf(ranked[..n]) ensures Score(s, q, lower) >= ranked[j].0 {
      var t :| 0 <= t < n && SongsOf(ranked[..n])[t] == s;
      assert s == ranked[t].1;
      assert ranked[t] in ms by { assert ranked[t] in multiset(ms); }
    }
  }

  lemma NotInResult(p: seq<Match>, j: nat, song: SongEntry)
    requires song !in SongsOf(p)
    ensures j < |p| ==> p[j].1 != song
  {
    if j < |p| {
      assert SongsOf(p)[j] == p[j].1;
    }
  }

  // ---------------------------------------------------------------------
  // escape_html: re.sub(r"<[^>]+>", "", text)
  // ---------------------------------------------------------------------

  /** The index of the first `c` in `s`, or -1. */
  function IndexOf(s: string, c: char): (r: int)
    ensures r == -1 || 0 <= r < |s|
    ensures r == -1 ==> c !in s
    ensures r >= 0 ==> s[r] == c && c !in s[..r]
  {
    if s == [] then -1
    else if s[0] == c then 0
    else
      var k := IndexOf(s[1..], c);
      assert s == [s[0]] + s[1..];
      if k == -1 then -1
      else
        assert s[..k + 1] == [s[0]] + s[1..][..k];
        k + 1
  }

  /** `s[i..j+1]` is a tag: a `<`, one or more characters other than `>`,
      and a `>`. */
  predicate TagAt(s: string, i: int, j: int) {
    0 <= i && i + 1 < j < |s| && s[i] == '<' && s[j] == '>' && '>' !in s[i + 1..j]
  }

  predicate NoTag(s: string) {
    forall i, j | 0 <= i < j < |s| :: !TagAt(s, i, j)
  }

  /** The pattern is tried at each position from the left; a match ends at
      the first `>` after the `<` (the class `[^>]` cannot pass one), and the
      scan resumes after it. */
  function EscapeHtml(s: string): (r: string)
    ensures |r| <= |s|
    ensures forall c :: c in r ==> c in s
    ensures s != [] && s[0] != '<' ==> r != [] && r[0] == s[0]
    decreases |s|
  {
    if s == [] then []
    else
      var k := IndexOf(s[1..], '>');
      if s[0] == '<' && k >= 1 then
        var r := EscapeHtml(s[k + 2..]);
        assert forall c :: c in s[k + 2..] ==> c in s;
        r
      else
        var r := EscapeHtml(s[1..]);
        assert forall c :: c in s[1..] ==> c in s;
        [s[0]] + r
  }

  /** No tag is left in the result: every `<` kept is directly followed by
      `>` or has no `>` after it. */
  lemma {:induction false} EscapeHtmlRemovesTags(s: string)
    ensures NoTag(EscapeHtml(s))
    decreases |s|
  {
    if s != [] {
      var k := IndexOf(s[1..], '>');
      if s[0] == '<' && k >= 1 {
        EscapeHtmlRemovesTags(s[k + 2..]);
      } else {
        var t := EscapeHtml(s[1..]);
        EscapeHtmlRemovesTags(s[1..]);
        KeptHead(s[0], t, k == -1);
      }
    }
  }

  /** Putting `c` in front of a tag-free `t` makes no tag, when `c` is not
      `<`, or `t` starts with `>`, or `t` has no `>`. */
  lemma KeptHead(c: char, t: string, noClose: bool)
    requires NoTag(t)
    requires c == '<' ==> (noClose && '>' !in t) || (!noClose && t != [] && t[0] == '>')
    ensures NoTag([c] + t)
  {
    var r := [c] + t;
    forall i, j | 0 <= i < j < |r| ensures !TagAt(r, i, j) {
      if i == 0 {
        assert r[j] == t[j - 1];
        if j >= 2 {
          assert r[1] in r[1..j];
        }
      } else {
        assert r[i + 1..j] == t[i..j - 1];
        assert !TagAt(t, i - 1, j - 1);
      }
    }
  }

  /** A string is left unchanged exactly when it holds no tag. */
  lemma {:induction false} EscapeHtmlFixedIff(s: string)
    ensures EscapeHtml(s) == s <==> NoTag(s)
    decreases |s|
  {
    if s != [] {
      var k := IndexOf(s[1..], '>');
      if s[0] == '<' && k >= 1 {
        assert s[1..][..k] == s[1..k + 1];
        assert TagAt(s, 0, k + 1);
        assert |EscapeHtml(s)| < |s|;
      } else {
        EscapeHtmlFixedIff(s[1..]);
        TailTags(s, k);
      }
    }
  }

  /** With no tag starting at 0, `s` holds a tag exactly when its tail does. */
  lemma TailTags(s: string, k: int)
    requires s != [] && k == IndexOf(s[1..], '>')
    requires !(s[0] == '<' && k >= 1)
    ensures NoTag(s) <==> NoTag(s[1..])
  {
    var t := s[1..];
    forall i, j | 0 <= i < j < |t| ensures TagAt(t, i, j) <==> TagAt(s, i + 1, j + 1) {
      assert t[i + 1..j] == s[i + 2..j + 1];
    }
    assert NoTag(t) <==> forall i, j | 1 <= i < j < |s| :: !TagAt(s, i, j) by {
      forall i, j | 1 <= i < j < |s| ensures TagAt(s, i, j) <==> TagAt(t, i - 1, j - 1) {
        assert t[i..j - 1] == s[i + 1..j];
      }
    }
    forall j | 0 < j < |s| ensures !TagAt(s, 0, j) {
      if s[0] == '<' && j >= 2 && s[j] == '>' {
        assert s[j] in s[1..];
        assert s[1..][0] == '>';
        assert s[1] in s[1..j];
      }
    }
  }

  /** Text before the first `<` is kept as it is. */
  lemma {:induction false} EscapeHtmlKeepsPlainPrefix(p: string, s: string)
    requires '<' !in p
    ensures EscapeHtml(p + s) == p + EscapeHtml(s)
    decreases |p|
  {
    if p != [] {
      var t := p + s;
      assert t[0] == p[0] && t[1..] == p[1..] + s;
      assert p[0] in p;
      EscapeHtmlKeepsHead(t);
      assert '<' !in p[1..] by {
        assert forall i :: 0 <= i < |p[1..]| ==> p[1..][i] == p[i + 1];
      }
      EscapeHtmlKeepsPlainPrefix(p[1..], s);
      assert p == [p[0]] + p[1..];
    } else {
      assert p + s == s;
    }
  }

  lemma EscapeHtmlKeepsHead(t: string)
    requires t != [] && t[0] != '<'
    ensures EscapeHtml(t) == [t[0]] + EscapeHtml(t[1..])
  {
  }

  /** A tag, `<` then one or more characters other than `>` then `>`, is
      removed whole and the scan goes on after it. */
  lemma EscapeHtmlDropsTag(x: string, s: string)
    requires x != [] && '>' !in x
    ensures EscapeHtml("<" + x + ">" + s) == EscapeHtml(s)
  {
    var t := "<" + x + ">" + s;
    var k := IndexOf(t[1..], '>');
    assert t[1..] == x + ">" + s;
    assert t[1..][|x|] == '>';
    assert '>' in t[1..];
    assert forall i :: 0 <= i < |x| ==> t[1..][i] != '>' by {
      assert forall i :: 0 <= i < |x| ==> t[1..][i] == x[i] && x[i] in x;
    }
    assert k <= |x| by {
      assert forall m :: |x| < m <= |t[1..]| ==> t[1..][..m][|x|] == '>';
    }
    assert t[k + 2..] == s;
  }

  /** A `<` that does not open a tag, because `>` follows at once or no `>`
      follows at all, is kept. */
  lemma EscapeHtmlKeepsLoneOpen(s: string)
    requires (s != [] && s[0] == '>') || '>' !in s
    ensures EscapeHtml("<" + s) == "<" + EscapeHtml(s)
  {
    var t := "<" + s;
    assert t[1..] == s;
    assert t[0] == '<';
  }

  /** Stripping twice strips no more. */
  lemma EscapeHtmlIdempotent(s: string)
    ensures EscapeHtml(EscapeHtml(s)) == EscapeHtml(s)
  {
    EscapeHtmlRemovesTags(s);
    EscapeHtmlFixedIff(EscapeHtml(s));
  }

  /** A string without `<` is unchanged. */
  lemma EscapeHtmlPlainText(s: string)
    requires '<' !in s
    ensures EscapeHtml(s) == s
  {
    assert NoTag(s) by {
      forall i, j | 0 <= i < j < |s| ensures !TagAt(s, i, j) {
        assert s[i] in s;
      }
    }
    EscapeHtmlFixedIff(s);
  }

  // ---------------------------------------------------------------------
  // truncate_message
  // ---------------------------------------------------------------------

  /** The notice appended to a truncated message. */
  const Notice: string := "\n\n\U{1F4DD} <i>Viesti katkaistiin pituuden vuoksi...</i>"

  /** `truncate_message` as written: `rfind`'s -1 ("no newline") passes the
      guard `last_newline > max_length - 200` whenever `max_length < 199`,
      and `truncated[:-1]` then drops the last character. */
  function TruncateMessage(text: string, maxLength: int): string {
    if |text| <= maxLength then text
    else
      var truncated := Prefix(text, maxLength);
      var lastNewline := RFind(truncated, "\n");
      (if lastNewline > maxLength - 200 then Prefix(truncated, lastNewline) else truncated) + Notice
  }

  /** `truncate_message` with the guard it evidently intends: cut at the
      last newline only when there is one and it lies near the limit. */
  function TruncateMessageFixed(text: string, maxLength: int): string {
    if |text| <= maxLength then text
    else
      var truncated := Prefix(text, maxLength);
      var lastNewline := RFind(truncated, "\n");
      (if lastNewline >= 0 && lastNewline > maxLength - 200 then Prefix(truncated, lastNewline) else truncated) + Notice
  }

  /** `p` is the kept part of a text longer than `m`: a prefix of at most
      `m` characters that ends just before the last newline of `text[..m]`
      when that newline lies beyond `m - 200`, and is all of `text[..m]`
      when no newline does. */
  predicate CutNearLimit(text: string, m: int, p: string) {
    && 0 <= m < |text|
    && IsPrefix(p, text) && |p| <= m
    && (|p| < m ==> m - 200 < |p| && text[|p|] == '\n' && forall j :: |p| < j < m ==> text[j] != '\n')
    && (|p| == m ==> forall j :: 0 <= j < m && m - 200 < j ==> text[j] != '\n')
  }

  lemma OccursNewline(s: string, j: int)
    requires 0 <= j < |s|
    ensures OccursAt(s, "\n", j) <==> s[j] == '\n'
  {
    assert s[j..j + 1] == [s[j]];
  }

  /** A text that fits is returned as is; a longer one is cut near the limit,
      preferring a line break, and gets the notice. */
  lemma TruncateMessageFixedCuts(text: string, m: int)
    requires m >= 0
    ensures var r := TruncateMessageFixed(text, m);
      && (|text| <= m ==> r == text)
      && (|text| > m ==> |r| >= |Notice| && r[|r| - |Notice|..] == Notice && CutNearLimit(text, m, r[..|r| - |Notice|]))
  {
    if |text| > m {
      var truncated := text[..m];
      var lastNewline := RFind(truncated, "\n");
      var p := if lastNewline >= 0 && lastNewline > m - 200 then truncated[..lastNewline] else truncated;
      var r := TruncateMessageFixed(text, m);
      assert r == p + Notice;
      assert r[..|r| - |Notice|] == p && r[|r| - |Notice|..] == Notice;
      forall j | 0 <= j < m && j > lastNewline ensures text[j] != '\n' {
        OccursNewline(truncated, j);
      }
      if lastNewline >= 0 && lastNewline > m - 200 {
        OccursNewline(truncated, lastNewline);
      }
    }
  }

  /** For every `max_length` of at least 199, the default 4000 among them,
      the code as written keeps the intended behaviour. */
  lemma TruncateMessageAgrees(text: string, m: int)
    requires m >= 199
    ensures TruncateMessage(text, m) == TruncateMessageFixed(text, m)
  {
  }

  /** For `1 <= max_length < 199` and no newline in the first `max_length`
      characters, the code as written keeps one character less than the
      limit allows, where the intended behaviour keeps `max_length`. */
  lemma TruncateMessageDropsChar(text: string, m: int)
    requires 1 <= m < 199 && m < |text| && '\n' !in text[..m]
    ensures TruncateMessage(text, m) == text[..m - 1] + Notice
    ensures TruncateMessageFixed(text, m) == text[..m] + Notice
  {
    var lastNewline := RFind(text[..m], "\n");
    assert lastNewline == -1 by {
      if lastNewline >= 0 {
        OccursNewline(text[..m], lastNewline);
      }
    }
    assert text[..m][..m - 1] == text[..m - 1];
  }

  // ---------------------------------------------------------------------
  // The chunk splitter of send_long_message
  // ---------------------------------------------------------------------

  /** The longest chunk sent, under the chat's 4096-character limit. */
  const MaxLength: int := 4000

  /** The break point in a full-length window: the last paragraph break,
      or the last line break when there is no paragraph break, if that lies
      beyond `MaxLength - 200`; otherwise a hard cut at `MaxLength`. */
  function SplitPoint(chunk: string): (sp: int)
    requires |chunk| == MaxLength
    ensures MaxLength - 200 < sp <= MaxLength
  {
    var lastNewline := RFind(chunk, "\n\n");
    var lastNewline' := if lastNewline == -1 then RFind(chunk, "\n") else lastNewline;
    if lastNewline' > MaxLength - 200 then lastNewline' else MaxLength
  }

  /** How the break point is chosen: a paragraph break beyond 3800 wins and
      the last one is taken; a paragraph break only at or before 3800 means a
      hard cut, with no line-break fallback; only without any paragraph
      break is the last line break beyond 3800 taken. */
  lemma SplitPointChoice(chunk: string)
    requires |chunk| == MaxLength
    ensures var sp := SplitPoint(chunk);
      && (sp < MaxLength ==> chunk[sp] == '\n')
      && ((exists i :: OccursAt(chunk, "\n\n", i) && i > MaxLength - 200) ==>
            OccursAt(chunk, "\n\n", sp) && forall i :: sp < i ==> !OccursAt(chunk, "\n\n", i))
      && ((exists i :: OccursAt(chunk, "\n\n", i)) && (forall i :: i > MaxLength - 200 ==> !OccursAt(chunk, "\n\n", i)) ==>
            sp == MaxLength)
      && ((forall i :: !OccursAt(chunk, "\n\n", i)) ==>
            (sp < MaxLength ==> forall j :: sp < j < MaxLength ==> chunk[j] != '\n') &&
            (sp == MaxLength ==> forall j :: MaxLength - 200 < j < MaxLength ==> chunk[j] != '\n'))
  {
    var sp := SplitPoint(chunk);
    var dbl := RFind(chunk, "\n\n");
    var ln := RFind(chunk, "\n");
    if sp < MaxLength {
      assert OccursAt(chunk, "\n\n", sp) || OccursAt(chunk, "\n", sp);
      assert chunk[sp..sp + 1][0] == chunk[sp];
    }
    if dbl == -1 {
      forall j | (if sp < MaxLength then sp else MaxLength - 200) < j < MaxLength ensures chunk[j] != '\n' {
        OccursNewline(chunk, j);
      }
    }
  }

  /** One turn of the splitting loop on `remaining`: the chunk sent, the
      whitespace `lstrip` then drops, and the text left to send. */
  datatype Split = Split(chunk: string, gap: string, rest: string)

  function SplitOnce(remaining: string): (s: Split)
    requires |remaining| > MaxLength
    ensures s.chunk + s.gap + s.rest == remaining
    ensures MaxLength - 200 < |s.chunk| <= MaxLength
    ensures AllSpace(s.gap) && (s.rest == [] || !IsSpace(s.rest[0]))
  {
    var sp := SplitPoint(remaining[..MaxLength]);
    var rest := remaining[sp..];
    var stripped := LStrip(rest);
    var gap := rest[..|rest| - |stripped|];
    assert AllSpace(gap) && gap + stripped == rest && (stripped == [] || !IsSpace(stripped[0])) by {
      StripParts(rest);
    }
    assert remaining[..sp] + gap + stripped == remaining by {
      assert remaining[..sp] + rest == remaining;
      AppendAssoc(remaining[..sp], gap, stripped);
    }
    Split(remaining[..sp], gap, stripped)
  }

  /** The chunks sent for the text still to send, `remaining`: while it is
      longer than `MaxLength`, the part before the break point; a blank
      remainder sends nothing. */
  function ChunksFrom(remaining: string): seq<string>
    decreases |remaining|
  {
    if |remaining| <= MaxLength then
      if remaining == [] then [] else [remaining]
    else
      var s := SplitOnce(remaining);
      [s.chunk] + ChunksFrom(s.rest)
  }

  /** The messages sent for `text`: the text itself when it fits (even
      empty), otherwise its chunks. */
  function Messages(text: string): seq<string> {
    if |text| <= MaxLength then [text] else ChunksFrom(text)
  }

  /** Every chunk is non-empty and fits in one message. */
  lemma {:induction false} ChunksFit(remaining: string)
    ensures forall c :: c in ChunksFrom(remaining) ==> 0 < |c| <= MaxLength
    decreases |remaining|
  {
    if |remaining| > MaxLength {
      ChunksFit(SplitOnce(remaining).rest);
    }
  }

  /** Each split consumes more than `MaxLength - 200` characters, which
      bounds the number of chunks. */
  lemma {:induction false} ChunkCount(remaining: string)
    ensures |ChunksFrom(remaining)| * (MaxLength - 199) <= |remaining| + MaxLength - 200
    decreases |remaining|
  {
    if |remaining| > MaxLength {
      ChunkCount(SplitOnce(remaining).rest);
    }
  }

  /** `chunks[0] + gaps[0] + chunks[1] + gaps[1] + ...` */
  function Join(chunks: seq<string>, gaps: seq<string>): string
    requires |gaps| == |chunks|
  {
    if chunks == [] then [] else chunks[0] + gaps[0] + Join(chunks[1..], gaps[1..])
  }

  lemma JoinCons(c: string, g: string, chunks: seq<string>, gaps: seq<string>)
    requires |gaps| == |chunks|
    ensures Join([c] + chunks, [g] + gaps) == c + g + Join(chunks, gaps)
  {
    assert ([c] + chunks)[1..] == chunks;
    assert ([g] + gaps)[1..] == gaps;
  }

  /** The whitespace `lstrip` removed after each chunk (the last entry is
      what remained after the final chunk, when that was blank). */
  function Gaps(remaining: string): (gaps: seq<string>)
    ensures |gaps| == |ChunksFrom(remaining)|
    ensures forall g :: g in gaps ==> AllSpace(g)
    decreases |remaining|
  {
    if |remaining| <= MaxLength then
      if remaining == [] then [] else [""]
    else
      var s := SplitOnce(remaining);
      [s.gap] + Gaps(s.rest)
  }

  /** Joining the chunks with the stripped whitespace gives the text back:
      the split loses nothing but whitespace after the break points. */
  lemma {:induction false} ChunksReassemble(remaining: string)
    ensures Join(ChunksFrom(remaining), Gaps(remaining)) == remaining
    decreases |remaining|
  {
    if |remaining| > MaxLength {
      var s := SplitOnce(remaining);
      ChunksReassemble(s.rest);
      JoinCons(s.chunk, s.gap, ChunksFrom(s.rest), Gaps(s.rest));
    } else if remaining != [] {
      assert Join([remaining], [""]) == remaining + "" + [];
    }
  }

  /** The splitting loop of `send_long_message`. */
  method SplitMessage(text: string) returns (chunks: seq<string>)
    ensures chunks == Messages(text)
  {
    if |text| <= MaxLength {
      return [text];
    }
    chunks := [];
    var remaining := text;
    while |remaining| > MaxLength
      invariant chunks + ChunksFrom(remaining) == ChunksFrom(text)
      decreases |remaining|
    {
      var chunk := remaining[..MaxLength];
      var lastNewline := RFind(chunk, "\n\n");
      if lastNewline == -1 {
        lastNewline := RFind(chunk, "\n");
      }
      var splitPoint;
      if lastNewline > MaxLength - 200 {
        splitPoint := lastNewline;
      } else {
        splitPoint := MaxLength;
      }
      assert splitPoint == SplitPoint(chunk);
      ghost var s := SplitOnce(remaining);
      assert s.chunk == remaining[..splitPoint] && s.rest == LStrip(remaining[splitPoint..]);
      AppendAssoc(chunks, [s.chunk], ChunksFrom(s.rest));
      chunks := chunks + [remaining[..splitPoint]];
      remaining := LStrip(remaining[splitPoint..]);
    }
    if remaining != [] {
      chunks := chunks + [remaining];
    }
  }

  /** `lstrip` splits a string into a blank head and the rest. */
  lemma StripParts(s: string)
    ensures var r := LStrip(s); var g := s[..|s| - |r|];
      AllSpace(g) && g + r == s && (r == [] || !IsSpace(r[0]))
  {
    var r := LStrip(s);
    var k := |s| - |r|;
    assert s[..k] + s[k..] == s;
  }

  /** Kept apart from its callers so that the solver sees only this
      instance of associativity, not the definitions around it. */
  lemma AppendAssoc<T>(a: seq<T>, b: seq<T>, c: seq<T>)
    ensures (a + b) + c == a + (b + c)
  {
  }

  /** The song store. */
  class SongDatabase {
    var songs: seq<SongEntry>

    /** `SongDatabase()`: the songs read from the song file, or none when
        the file is missing or not valid JSON. */
    constructor(loaded: Option<seq<SongEntry>>)
      ensures songs == if loaded.Some? then loaded.value else []
    {
      songs := if loaded.Some? then loaded.value else [];
    }

    /** `search`: a blank query lists the first `limit` songs; otherwise the
        songs are scored one by one and the best `limit` returned. */
    method Search(query: string, limit: int, lower: string -> string) returns (result: seq<SongEntry>)
      ensures result == SearchResult(songs, query, limit, lower)
      ensures AllSpace(query) ==> result == Prefix(songs, limit)
    {
      if AllSpace(query) {
        return Prefix(songs, limit);
      }
      var queryLower := lower(query);
      var matches: seq<Match> := [];
      for i := 0 to |songs|
        invariant matches == Matches(songs[..i], queryLower, lower)
      {
        var song := songs[i];
        var score := 0;
        if Contains(lower(Get(song, "name")), queryLower) {
          score := score + 10;
        }
        if Contains(lower(Get(song, "lyrics")), queryLower) {
          score := score + 1;
        }
        assert score == Score(song, queryLower, lower);
        MatchesStep(songs, queryLower, lower, i);
        if score > 0 {
          matches := matches + [(score, song)];
        }
      }
      assert songs[..|songs|] == songs;
      matches := Sort(matches);
      result := SongsOf(Prefix(matches, limit));
    }
  }
}
