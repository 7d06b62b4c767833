# Fiisut song extraction and song bot, in Dafny

This project models the core of the Fiisut song tools.

- **The newer song extractor** (`extract_songs.py`) reads a parsed LaTeX song document and builds a record of name, melody, composer, arranger and lyrics text. Anything it cannot handle it skips.
- **The older extractor** (`tools/extract_songs.py`) walks the same tree with different markup markers. The first thing it cannot handle raises, and the song fails.
- **The bot's pure helpers** (`fiisubot.py`):
  - the in-memory song search, with its scoring, stable ranking and limit;
  - the removal of HTML tags;
  - message truncation;
  - the loop that splits a long reply into chat-sized chunks.

Modules, one per file:

- `Python` (`python.dfy`): the pieces of Python the code relies on. These are `Option`, a `Result` that carries the raised exception class, `str.isspace`, `lstrip`, `startswith`, `rfind`, `in`, `replace` of one character, and slicing with a possibly negative bound.
- `LatexTree` (`latex_tree.dfy`): the parsed tree as a datatype, plus the command tables both extractors share. The tree is the parser's output and the model's input.
- `ExtractSongs` (`extract_songs.dfy`), `ToolsExtractSongs` (`extract_songs_tools.dfy`) and `FiisuBot` (`fiisubot.dfy`): the three core files.

How each kind of source code is modelled:

- **Loops that accumulate a string** (`verse_args_to_str`, `handle_verses`, the Parse-Error filter of `main`) are methods with loops. Each is proved equal to a fold function, and the properties are lemmas about that fold.
- **Straight-line code** (`latex_str_to_str`, `handle_uverse`, `parse_tex`, `escape_html`, `truncate_message`) is functions and lemmas.
- **`SongDatabase`** is a class whose `songs` field its constructor sets.
- **The search loop** is a method proved equal to its specification.
- **The chunk splitter** of `send_long_message` is a method with a while loop, proved equal to a recursive specification.

Exceptions in the older extractor are `Result` values. `Then` sequences two steps; the first exception wins.

## Model

| member | source | states |
|---|---|---|
| Python.LStrip | fiisubot.py:147 | `lstrip` removes exactly the leading whitespace: the result is a suffix, everything removed is whitespace, and the result is empty or starts with a non-space |
| Python.RFind | fiisubot.py:109 | `rfind` returns the highest index where the pattern occurs, or -1 when it occurs nowhere |
| Python.ReplaceChar | extract_songs.py:225 | `replace` of one character keeps the length and replaces exactly the occurrences of that character |
| Python.IsSpace | fiisubot.py:63 | `str.isspace` (the `\s` class of `re` on a `str`): the ASCII controls tab to carriage return and 0x1C-0x1F, space, and the Unicode separators 0x85, 0xA0, 0x1680, 0x2000-0x200A, 0x2028, 0x2029, 0x202F, 0x205F, 0x3000 |
| Python.StartsWith | extract_songs.py:25 | `s.startswith(p)`: `p` is no longer than `s` and equals its first `|p|` characters |
| Python.Prefix | fiisubot.py:87 | `s[:n]`: the first `n` items, all of `s` when `n` exceeds its length, and for a negative `n` all but the last `-n` items (nothing when `-n` exceeds the length) |
| Python.Contains | fiisubot.py:74 | `pat in s`: some position of `s` holds `pat` |
| LatexTree.CommandAction | extract_songs.py:82-119 | the command dispatch: unknown exactly outside the known names; pass-through exactly for the formatting-only commands; suppressed exactly for the ignored ones; the command's name printed exactly for the literal-word commands |
| LatexTree.NonText | extract_songs.py:178-180 | the node-only filter keeps every non-text item and only those |
| LatexTree.NonTextAppend | extract_songs.py:178-180 | the filter keeps order and multiplicity: filtering a concatenation concatenates the filtered parts |
| LatexTree.NonTextSingle | extract_songs.py:178-180 | a single item is kept exactly when it is not text |
| ExtractSongs.DropRowLead | extract_songs.py:20 | the leading `[\s&]*` of `latex_row_to_plain` consumes the longest prefix of spaces and `&`s |
| ExtractSongs.FirstLine | extract_songs.py:20 | `.` stops at the first newline: the result is a newline-free prefix followed by a newline or the end |
| ExtractSongs.RStripSpace | extract_songs.py:20 | the lazy `(.*?)\s*$` leaves out exactly the trailing whitespace of the line |
| ExtractSongs.RowToPlain | extract_songs.py:20 | the captured group has no newline, starts with neither space nor `&`, ends in a non-space, is a prefix of the text after the leading `[\s&]*`, and only whitespace of that first line is cut off |
| ExtractSongs.LatexStrToStr | extract_songs.py:24-42 | `latex_str_to_str`: a comment gives "", a lone `\\` a newline, and any other token the captured group of `latex_row_to_plain`, after `&` became a newline in a two-column row; its properties are the lemmas below |
| ExtractSongs.LatexStrToStrShape | extract_songs.py:24-42 | a comment token gives ""; `\\` alone gives a newline; any other token gives one line that starts with neither whitespace nor `&` and does not end in whitespace; a two-column row loses its `&` |
| ExtractSongs.RowToPlainKeepsOut | extract_songs.py:20 | the captured group holds no character absent from the input |
| ExtractSongs.DropRowLeadOf | extract_songs.py:20 | the leading `[\s&]*` stops at the first other character |
| ExtractSongs.RowLeadLengthOf | extract_songs.py:20 | blanks and `&`s followed by another character: the leading `[\s&]*` has exactly the length of that lead |
| ExtractSongs.LStripOf | extract_songs.py:21 | the leading `\s*` of `has_2_columns` stops at the first non-space |
| ExtractSongs.LeadingSpaceOf | extract_songs.py:21 | whitespace followed by a non-space: the leading `\s*` has exactly the length of that whitespace |
| ExtractSongs.FirstLineOf | extract_songs.py:20 | the first line of `x + "\n" + rest` is `x` when `x` has no newline |
| ExtractSongs.RStripSpaceOf | extract_songs.py:20 | stripping trailing whitespace from a word followed by spaces gives the word |
| ExtractSongs.RowToPlainOfWord | extract_songs.py:20 | a word followed by spaces and a line break is captured alone |
| ExtractSongs.TwoColumnsOf | extract_songs.py:21 | `has_2_columns` matches spaces, a word, spaces, `&`, and a non-blank rest |
| ExtractSongs.HasTwoColumns | extract_songs.py:21 | `has_2_columns.match(s)`: after the leading blanks, a run of non-blanks, blanks, `&`, and a rest that is not all blank |
| ExtractSongs.ColumnsFrom | extract_songs.py:21 | the pattern matches from position `i` for some end of the first column and some position of `&` |
| ExtractSongs.ColumnsAt | extract_songs.py:21 | the first column is a non-empty run without blanks, followed only by blanks up to the `&`, which a non-blank follows somewhere |
| ExtractSongs.ReplaceOf | extract_songs.py:36-37 | replacing `&` by a newline in such a row puts a line break right after the first column |
| ExtractSongs.FirstColumnOfRow | extract_songs.py:36-42 | after that replacement, the row's text is its first column |
| ExtractSongs.TwoColumnRowKeepsFirstColumn | extract_songs.py:24-42 | a two-column row such as `  word & more` translates to its first column `word` |
| ExtractSongs.TwoColumnRowText | extract_songs.py:34-38 | a non-comment token other than `\\` with two columns is translated after the `&` replacement |
| ExtractSongs.Translation | extract_songs.py:63-131 | `verse_args_to_str` as a fold: the node texts of a list, concatenated in order |
| ExtractSongs.NodeTranslation | extract_songs.py:69-130 | the text one item adds, branch by branch of the loop body; skipped items add "" |
| ExtractSongs.TranslationAppend | extract_songs.py:63-131 | `verse_args_to_str` of a concatenation is the concatenation of the texts |
| ExtractSongs.SkippedNodeIsIsolated | extract_songs.py:91-92 | a skipped node (other environment, ignored or unknown command, unexpected kind, comment) leaves the text of its neighbours unchanged |
| ExtractSongs.SkippedNodeIsEmpty | extract_songs.py:116-127 | a skipped node contributes nothing |
| ExtractSongs.TranslationSingle | extract_songs.py:68-130 | a one-node list translates to that node's text |
| ExtractSongs.MarkupRules | extract_songs.py:70-123 | chorus is wrapped in `<i>`; tabular drops as many content items as it has arguments; every command the dispatch table maps to a wrapper puts its tags around its content; srepeat and srepeatleft add the repeat marks; formatting-only commands, math and groups pass their content through; the literal word gets a leading space |
| ExtractSongs.WrapperRules | extract_songs.py:98-111 | textit, emph and sourcecodepro wrap their content in `<i>`, `<b>` and `<pre>` |
| ExtractSongs.SymbolRules | extract_songs.py:89-115 | times, the three dots commands and epsilon give their fixed symbols |
| ExtractSongs.VerseArgsToStr | extract_songs.py:63-131 | the loop builds exactly the fold `Translation` of its input |
| ExtractSongs.LineToStr | extract_songs.py:69-130 | one loop iteration adds exactly the node's text |
| ExtractSongs.HandleUverse | extract_songs.py:137-140 | an unnumbered verse succeeds exactly when it has a single brace-group argument, and gives that group's text |
| ExtractSongs.Lyrics | extract_songs.py:162-192 | `handle_verses` as a fold: the texts of the body nodes, concatenated in order |
| ExtractSongs.VerseText | extract_songs.py:165-191 | the text one body node adds; a skipped node, an unknown kind or one whose handling raises adds "" |
| ExtractSongs.LyricsAppend | extract_songs.py:162-192 | `handle_verses` of a concatenation is the concatenation of the texts |
| ExtractSongs.SamepageIsTransparent | extract_songs.py:172-173 | a samepage block contributes the text of its content, in place |
| ExtractSongs.SamepageText | extract_songs.py:172-173 | a samepage node's text is the text of its content |
| ExtractSongs.DroppedVerseIsIsolated | extract_songs.py:166-191 | a skipped, unknown or failing body node (a malformed verse, an empty subsong) leaves the rest of the lyrics intact |
| ExtractSongs.SilentVerseIsIsolated | extract_songs.py:164-192 | any body node with no text leaves its neighbours' text unchanged |
| ExtractSongs.DroppedVerseIsEmpty | extract_songs.py:166-191 | such a node contributes nothing |
| ExtractSongs.LyricsAround | extract_songs.py:164-192 | the lyrics of `a + [c] + b` are those of `a`, then `c`'s text, then those of `b` |
| ExtractSongs.LyricsSingle | extract_songs.py:164-192 | a one-node body gives that node's text |
| ExtractSongs.UverseRule | extract_songs.py:174-176 | a well-formed unnumbered verse gives its text and a blank line |
| ExtractSongs.SubsongRule | extract_songs.py:177-185 | a subsong gives its italic title line, the text of its content and a blank line |
| ExtractSongs.LyricsIgnoresText | extract_songs.py:178-184 | leaving the text items out of a subsong's content does not change its lyrics |
| ExtractSongs.HandleVerses | extract_songs.py:162-192 | the loop builds exactly the fold `Lyrics` of the body |
| ExtractSongs.VerseToStr | extract_songs.py:165-191 | one iteration adds exactly the node's text, or nothing when it raises |
| ExtractSongs.ParseTex | extract_songs.py:210-258 | no song gives the Parse Error record. The name is `str` of the first content item of argument 0 with `~` replaced by a space, or "Unknown Song" when that argument has no content; it never holds `~`. Melody, composer and arranger are `str` of the first content item of arguments 1, 5 and 6, and absent exactly when the argument has no content. The lyrics are those of the song body |
| ExtractSongs.FirstContent | extract_songs.py:224-240 | `x and hasattr(x, "contents") and x.contents`: an absent argument, a string, or a node without content gives nothing; otherwise its first content item |
| ExtractSongs.MetaField | extract_songs.py:229-240 | `str` of that first content item, or `None` |
| ExtractSongs.Accepted | extract_songs.py:299-305 | the records `main` keeps: those not named "Parse Error", in file order |
| ExtractSongs.Failed | extract_songs.py:299-305 | the paths `main` reports as failed: those whose record is named "Parse Error", in file order |
| ExtractSongs.AcceptedPartition | extract_songs.py:299-305 | every parsed file is either kept or reported as failed; no kept record is named "Parse Error"; every other record is kept |
| ExtractSongs.ParseErrorTitleIsRejected | extract_songs.py:302 | the failure record is dropped, and so is a genuine song titled "Parse Error" |
| ExtractSongs.ReplaceCharAbsent | extract_songs.py:225 | replacing a character that does not occur changes nothing |
| ExtractSongs.AcceptedSingle | extract_songs.py:302-305 | one record is kept exactly when its name is not "Parse Error" |
| ExtractSongs.CollectSongs | extract_songs.py:299-305 | the loop keeps exactly the records not named "Parse Error", in order, and reports the other paths; the two counts add up to the number of files |
| ToolsExtractSongs.Then | tools/extract_songs.py:31-90 | `out += a; out += b`: the first exception wins, otherwise the texts concatenate |
| ToolsExtractSongs.ThenAssoc | tools/extract_songs.py:31-90 | sequencing is associative |
| ToolsExtractSongs.ThenUnit | tools/extract_songs.py:30 | the empty text is neutral |
| ToolsExtractSongs.ReplaceDoubleBackslash | tools/extract_songs.py:12 | `replace("\\\\", "\n")` leaves no `\\` behind and never lengthens the text (what each pair becomes is ReplaceDoubleBackslashAt) |
| ToolsExtractSongs.ReplaceDoubleBackslashAt | tools/extract_songs.py:12 | the first `\\` pair becomes a newline, the text before it is kept, and the replacement goes on after the pair |
| ToolsExtractSongs.ReplaceDoubleBackslashFixes | tools/extract_songs.py:12 | a text without `\\` is unchanged |
| ToolsExtractSongs.ReplaceDoubleBackslashIdempotent | tools/extract_songs.py:12 | replacing twice is replacing once |
| ToolsExtractSongs.LatexStrToStrShape | tools/extract_songs.py:7-13 | a comment gives ""; otherwise one leading newline is dropped and the pairs are replaced in the rest; the result is never longer than the token and holds no `\\`; a token without `\\` or a leading newline is returned as is |
| ToolsExtractSongs.LatexStrToStr | tools/extract_songs.py:7-13 | `latex_str_to_str`: a comment gives "", otherwise the pair replacement of the token without one leading newline |
| ToolsExtractSongs.Translation | tools/extract_songs.py:26-90 | `verse_args_to_str` as a fold: the node results sequenced in order, the first exception ending it |
| ToolsExtractSongs.NodeTranslation | tools/extract_songs.py:32-89 | the result of one item, branch by branch of the loop body; an unknown command or item kind raises `ValueError` |
| ToolsExtractSongs.TranslationAppend | tools/extract_songs.py:26-90 | the text of a concatenation is the sequencing of the texts |
| ToolsExtractSongs.TranslationSingle | tools/extract_songs.py:31-89 | a one-node list translates to that node's result |
| ToolsExtractSongs.TranslationSucceedsIff | tools/extract_songs.py:26-90 | a list translates exactly when no unknown command or unexpected node kind occurs in it (recursively), and every failure is a `ValueError` |
| ToolsExtractSongs.NodeTranslationSucceedsIff | tools/extract_songs.py:32-89 | the same for one node |
| ToolsExtractSongs.UnknownCommandFailsAll | tools/extract_songs.py:80-82 | one unknown command makes the whole list fail, with `ValueError` when nothing failed before it |
| ToolsExtractSongs.MarkupRules | tools/extract_songs.py:32-79 | chorus and textit wrap in `<BEGIN ITALIC>`/`<END ITALIC>`, emph in `<BEGIN BOLD>`/`<END BOLD>`, sourcecodepro in triple backquotes, srepeat in repeat marks; other environments give "" |
| ToolsExtractSongs.ContentRules | tools/extract_songs.py:38-86 | tabular drops as many content items as it has arguments; srepeatleft gets the opening mark; formatting-only commands, math and groups pass their content through; ignored commands give ""; the literal word gets a leading space |
| ToolsExtractSongs.SymbolRules | tools/extract_songs.py:53-79 | times, the three dots commands and epsilon give their fixed symbols |
| ToolsExtractSongs.VerseArgsToStr | tools/extract_songs.py:26-90 | the loop, stopping at the first exception, computes exactly the fold `Translation` |
| ToolsExtractSongs.FirstErrorWins | tools/extract_songs.py:31-90 | once a prefix of the list fails, the whole list fails with the same exception |
| ToolsExtractSongs.LineToStr | tools/extract_songs.py:32-89 | one iteration computes exactly the node's result |
| ToolsExtractSongs.HandleUverse | tools/extract_songs.py:97-100 | an `AssertionError` exactly when the verse does not have a single brace-group argument; otherwise the result is the translation of that group's content, which succeeds only when all of it is translatable |
| ToolsExtractSongs.Lyrics | tools/extract_songs.py:124-145 | `handle_verses` as a fold: the body node results sequenced in order, the first exception ending it |
| ToolsExtractSongs.VerseText | tools/extract_songs.py:126-144 | the result of one body node: skipped, samepage, uverse, subsong, or `ValueError` for any other kind |
| ToolsExtractSongs.LyricsAppend | tools/extract_songs.py:124-145 | the body text of a concatenation is the sequencing of the texts |
| ToolsExtractSongs.LyricsSingle | tools/extract_songs.py:126-144 | a one-node body gives that node's result |
| ToolsExtractSongs.LyricsAround | tools/extract_songs.py:126-144 | the result for `a + [c] + b` sequences those of `a`, `c` and `b` |
| ToolsExtractSongs.TextInBodyFails | tools/extract_songs.py:127 | a text item in the body raises `AttributeError` (a `str` has no `name`) |
| ToolsExtractSongs.UnknownVerseFails | tools/extract_songs.py:143-144 | an unknown verse kind raises `ValueError` |
| ToolsExtractSongs.SkippedVerseIsIsolated | tools/extract_songs.py:127-128 | a skipped verse kind leaves its neighbours' result unchanged |
| ToolsExtractSongs.SamepageIsTransparent | tools/extract_songs.py:131-132 | samepage contributes the result of its content, in place |
| ToolsExtractSongs.UverseRule | tools/extract_songs.py:133-135 | an unnumbered verse gives its text and one newline, or its exception |
| ToolsExtractSongs.SubsongRule | tools/extract_songs.py:136-142 | an empty subsong raises `IndexError`; a node title raises `TypeError`; a string title gives the `[ITALIC]` title line, the text of the content's nodes and a newline |
| ToolsExtractSongs.HandleVerses | tools/extract_songs.py:124-145 | the loop, stopping at the first exception, computes exactly the fold `Lyrics` |
| ToolsExtractSongs.LyricsFirstErrorWins | tools/extract_songs.py:126-144 | once a prefix of the body fails, the whole body fails with the same exception |
| ToolsExtractSongs.VerseToStr | tools/extract_songs.py:127-144 | one iteration computes exactly the node's result |
| ToolsExtractSongs.NameField | tools/extract_songs.py:168 | `name.contents[0]` succeeds exactly for a node with content |
| ToolsExtractSongs.MetaField | tools/extract_songs.py:169-171 | `x.contents[0] if x and x.contents else None`: absent, empty-string or contentless arguments give `None`; a non-empty string raises `AttributeError`; otherwise the first content item |
| ToolsExtractSongs.ParseTex | tools/extract_songs.py:161-173 | no song raises `AttributeError`; on success each field is what its slot gives and the lyrics are the body's text |
| ToolsExtractSongs.ParseTexSucceedsIff | tools/extract_songs.py:165-173 | a song parses exactly when its name, metadata and body all succeed |
| ToolsExtractSongs.NamelessSongFails | tools/extract_songs.py:165-168 | a song without arguments raises `AttributeError`; an empty name group raises `IndexError` |
| FiisuBot.Score | fiisubot.py:69-79 | the score is 0, 1, 10 or 11; at least 10 exactly when the name contains the lowercased query; odd exactly when the lyrics contain it |
| FiisuBot.Get | fiisubot.py:74-78 | `song.get(key, "")`: the stored value, or "" when the key is missing |
| FiisuBot.Matches | fiisubot.py:67-83 | the matches are songs of the database with their score, which is positive |
| FiisuBot.MatchesStep | fiisubot.py:69-83 | one more song extends the matches by that song and its score exactly when it scores |
| FiisuBot.MatchesComplete | fiisubot.py:81-83 | every song with a positive score is among the matches |
| FiisuBot.Insert | fiisubot.py:85-86 | inserting adds exactly one element (as a multiset) |
| FiisuBot.Sort | fiisubot.py:85-86 | the sort is a permutation of the matches |
| FiisuBot.Ranked | fiisubot.py:70-86 | the matches for the lowercased query, sorted by descending score |
| FiisuBot.InsertDescending | fiisubot.py:85-86 | inserting keeps the list descending by score |
| FiisuBot.SortDescending | fiisubot.py:85-86 | the sorted matches descend by score |
| FiisuBot.InsertStable | fiisubot.py:85-86 | inserting puts an element ahead of the equal-score elements already placed |
| FiisuBot.SortStable | fiisubot.py:85-86 | the sort is stable: the matches of each score keep their order |
| FiisuBot.WithScorePrefix | fiisubot.py:87 | cutting the list cuts each score's sub-list to a prefix |
| FiisuBot.SongsOf | fiisubot.py:87 | the result lists the songs of the kept matches, in order |
| FiisuBot.SearchResult | fiisubot.py:56-87 | what `search` returns: the first `limit` songs for a blank query, otherwise the songs of the first `limit` ranked matches |
| FiisuBot.SearchFindsMatches | fiisubot.py:66-87 | for a non-blank query, every result is a database song whose lowercased name or lyrics contains the lowercased query; at most `limit` (when non-negative) and at most the database size |
| FiisuBot.SearchRanksByScore | fiisubot.py:85-87 | scores never increase along the result |
| FiisuBot.SearchKeepsTies | fiisubot.py:85-87 | for each score, the result's matches of that score are the first ones in database order |
| FiisuBot.SearchIsTopK | fiisubot.py:66-87 | a matching song is left out only when the result is full and every result scores at least as much |
| FiisuBot.RankedOut | fiisubot.py:85-87 | the same, for a match left out at a given rank |
| FiisuBot.RankedHead | fiisubot.py:85-86 | every match ranked before a position scores at least as much as the match there |
| FiisuBot.SongDatabase.constructor | fiisubot.py:38-54 | the database holds the loaded songs, or none when the file is missing or not valid JSON |
| FiisuBot.SongDatabase.Search | fiisubot.py:56-87 | a blank query gives the first `limit` songs; otherwise the scoring loop, sort and cut give exactly the specified ranking |
| FiisuBot.IndexOf | fiisubot.py:99 | the first occurrence of a character, or -1 when there is none |
| FiisuBot.TagAt | fiisubot.py:99 | `<[^>]+>` matches `s[i..j+1]`: a `<`, at least one character, none of them `>`, then a `>` |
| FiisuBot.EscapeHtml | fiisubot.py:94-100 | removing tags never lengthens the text, introduces no character, and keeps a first character that is not `<` |
| FiisuBot.EscapeHtmlRemovesTags | fiisubot.py:99 | no `<`, then one or more non-`>`, then `>` is left in the result |
| FiisuBot.EscapeHtmlFixedIff | fiisubot.py:99 | a text is returned unchanged exactly when it holds no tag |
| FiisuBot.EscapeHtmlIdempotent | fiisubot.py:94-100 | stripping tags twice is stripping them once |
| FiisuBot.EscapeHtmlPlainText | fiisubot.py:94-100 | a text without `<` is unchanged |
| FiisuBot.EscapeHtmlKeepsPlainPrefix | fiisubot.py:99 | text before the first `<` is kept as it is |
| FiisuBot.EscapeHtmlDropsTag | fiisubot.py:99 | a tag is removed whole and the text after it is processed the same way |
| FiisuBot.EscapeHtmlKeepsLoneOpen | fiisubot.py:99 | a `<` followed at once by `>`, or with no `>` after it, is kept |
| FiisuBot.TruncateMessage | fiisubot.py:103-115 | `truncate_message` as written, with the guard `last_newline > max_length - 200` alone; its properties are TruncateMessageAgrees and TruncateMessageDropsChar |
| FiisuBot.TruncateMessageFixed | fiisubot.py:103-115 | `truncate_message` with the evidently intended guard, which also requires that a newline was found |
| FiisuBot.TruncateMessageFixedCuts | fiisubot.py:103-115 | a text that fits is returned as is. A longer one becomes a prefix of at most `max_length` characters plus the notice. The prefix ends just before the last newline of the first `max_length` characters when that newline lies beyond `max_length - 200`; otherwise the prefix is those whole `max_length` characters |
| FiisuBot.TruncateMessageAgrees | fiisubot.py:103-115 | for `max_length >= 199`, the default 4000 among them, the code as written behaves as intended |
| FiisuBot.TruncateMessageDropsChar | fiisubot.py:109-113 | as written, a `max_length` from 1 to 198 with no newline in the window keeps one character fewer than the limit |
| FiisuBot.SplitPoint | fiisubot.py:136-144 | the break point of a full window lies beyond 3800 and at most at 4000 |
| FiisuBot.SplitPointChoice | fiisubot.py:136-144 | a break before 4000 is at a newline. A paragraph break beyond 3800 wins, and the last one is taken. Paragraph breaks only at or before 3800 give the hard cut, with no line-break fallback. Without any paragraph break, the last line break beyond 3800 is used, or the hard cut when there is none |
| FiisuBot.SplitOnce | fiisubot.py:134-147 | one turn sends a chunk of 3801 to 4000 characters, then drops only whitespace, and what is left is empty or starts with a non-space |
| FiisuBot.ChunksFrom | fiisubot.py:131-150 | the chunks the loop sends for a text longer than 4000 characters: one chunk per turn, and the stripped rest when it is not empty |
| FiisuBot.Messages | fiisubot.py:122-150 | the messages sent: the text itself when it fits, otherwise its chunks |
| FiisuBot.ChunksFit | fiisubot.py:134-150 | every chunk is non-empty and at most 4000 characters long |
| FiisuBot.ChunkCount | fiisubot.py:134-150 | each turn consumes more than 3800 characters, so a text of length n gives at most (n + 3800) / 3801 chunks |
| FiisuBot.Gaps | fiisubot.py:147 | the whitespace dropped after each chunk is all whitespace, one piece per chunk |
| FiisuBot.ChunksReassemble | fiisubot.py:134-150 | joining the chunks with the dropped whitespace gives back the text: nothing but whitespace after a break point is lost |
| FiisuBot.SplitMessage | fiisubot.py:122-150 | a text of at most 4000 characters is one message (even when empty); otherwise the loop computes exactly the specified chunks |

## Left out

- The TeX parser (TexSoup): its output is the input datatype `LatexTree.Node`. In the newer extractor a failure of the parser itself ends in the same `except` as a missing song (extract_songs.py:211-258), so it is `None` for the song environment there.
- ToolsExtractSongs.ParseTex: an exception raised by the parser itself (tools/extract_songs.py:162) is not modelled. It would propagate unchanged, while the model only has `Err(AttributeError)` for a document with no song environment.
- The `re` engine: the two regular expressions of `extract_songs.py` and the tag pattern of `escape_html` are encoded by their effect, not by general regular-expression matching.
- The dead branch `match is None` (extract_songs.py:39-41): `latex_row_to_plain` matches every string, so the branch cannot run.
- File discovery, the encoding fallback, the progress bar, JSON writing and the `print` diagnostics of `main` (extract_songs.py:261-326). The module-level script of tools/extract_songs.py:176-189 is left out too. The Parse-Error filter of `main` is modelled on the `parse_tex` results of the files that decoded.
- `get_visual_len` (extract_songs.py:53-60): it is never called.
- `str()` of a parser node, used for the subsong title and the metadata fields of the newer extractor, is the parameter `render`.
- `str.lower` is the parameter `lower` of the search: Unicode case mapping is not modelled.
- `load_songs` file and JSON I/O (fiisubot.py:43-54) is the constructor's `loaded` parameter. `None` stands for a missing or malformed file.
- Song fields are modelled as strings. A JSON value of another type, which would make `.lower()` raise, is not modelled.
- Python's `list.sort` is modelled by a stable insertion-sort specification, not by Timsort.
- The Telegram handlers, message sending, help texts and startup (fiisubot.py:118-129, 152-412): the splitting loop is modelled on its own, and sending its chunks is left out.
- The truthiness of parser nodes is assumed. A node is treated as truthy and has no `__radd__`, so the older subsong's `"[ITALIC]" + name` raises `TypeError` for a node title.
- The Rust bot and indexer and the JavaScript index script are not part of this model. Neither are `song_contains_todo` and the `notes` field exercised by the tests, which the shown extractor does not define.
- ExtractSongs.VerseArgsToStr: the `try`/`except` around each item is not modelled separately. No item of the newer translator can raise, since unknown items are skipped before anything is added.

## Findings

| source | as written | input that shows it | evidently intended | confidence | as-written member | corrected member |
|---|---|---|---|---|---|---|
| fiisubot.py:109-113 | `rfind` returns -1 when the window has no newline, and `-1 > max_length - 200` holds for every `max_length` below 199, so `truncated[:-1]` drops the last character | `truncate_message("abc", 2)` gives `"a"` plus the notice | cut at a newline only when one exists (`last_newline >= 0`), giving `"ab"` plus the notice | not executed; the function is never called and its default of 4000 is unaffected | FiisuBot.TruncateMessageDropsChar | FiisuBot.TruncateMessageFixedCuts |
