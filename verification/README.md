# Dracula text pipeline: chapter splitting, tidying and re-reading

Two scripts prepare Bram Stoker's *Dracula*, in its Project Gutenberg
plain-text form, for analysis:

- `scripts/clean_gutenberg.py` finds the chapter headings in the raw text.
  - It chooses one of three heading regexes: strict upper-case, liberal, or any line that starts like a chapter.
  - It cuts the text into labelled chunks (`PREFACE`, `CHAPTER nn`, a heading's own text, or `FULL_TEXT`).
  - It decodes Roman chapter numbers.
  - It tidies each chunk: it cuts the Gutenberg footer and reflows the paragraphs.
  - It writes one witness file of `[label]` blocks and one file per chapter.
- `scripts/make_lemmas.py` reads the witness file back with `load_chapters`.
  - `load_chapters` splits the file at marker lines, numbers each row and sorts the rows by chapter number.
  - Each row's text becomes a lemma string through the regex tokenizer, which is the fallback used when no language model is present.
  - The script also computes each row's word count.

The model is written in Dafny, with one module per concern:

| module | models |
|---|---|
| `Text` | Python's `isspace`, `strip`, `upper`/`lower` and `join` |
| `Patterns` | One hand-written recogniser per regular expression of the scripts |
| `Scan` | `re.finditer`, `re.search` and `re.split` over any recogniser |
| `Roman` | `roman_to_int` |
| `Chapters` | `find_chapter_matches_in_raw` and `build_chunks_from_matches` |
| `Footer` | `strip_gutenberg_footer` |
| `Runs` | The two run-collapsing `re.sub` calls |
| `Reflow` | `collapse_whitespace_paragraphs` |
| `Numerals` | `int(...)` and `f"{n:02d}"` |
| `Writer` | The two write loops: the witness file, file names and the chapter directory |
| `Records` | The stable `sorted` |
| `Markers` | `load_chapters` |
| `Tokens` | The regex tokenizer and `str.split()` word count |
| `RoundTrip` | Reading the witness file back |

The strongest result is `RoundTrip.RoundTrip`. For chunks whose labels the reader knows and whose tidied bodies have no line starting with `[`, `load_chapters` applied to the witness file returns exactly one row per chunk:
- each row holds the chunk's label and tidied body;
- each row is numbered from its label;
- the rows are stably sorted by that number.

## Model

| member | source | states |
|---|---|---|
| Roman.RomanToInt | scripts/clean_gutenberg.py:52-64 | The value is never negative. It is the sum over the upper-cased, stripped numeral where each symbol counts negatively exactly when it is worth less than the symbol to its right; non-symbols count 0. |
| Roman.ScanIsNeighbourSum | scripts/clean_gutenberg.py:55-63 | The right-to-left loop that keeps `prev = curr` computes the same value as reading left to right, with each symbol's sign set by its right neighbour. |
| Roman.RomanExamples | scripts/clean_gutenberg.py:52-64 | XIV is 14, IX is 9, III is 3, MCMXCIX is 1999, and the empty string is 0. |
| Roman.RomanCaseAndSpace | scripts/clean_gutenberg.py:53 | Lower case and surrounding blanks do not change the value: `xiv` and ` XIV ` are both 14. |
| Roman.RomanNeighbourRule | scripts/clean_gutenberg.py:57-63 | The comparison is with the right neighbour only, so `IIX` is 10. A blank inside counts 0, so `I V` is 6. |
| Scan.FindAll | scripts/clean_gutenberg.py:73 | The matches are ordered and do not overlap. Each one is the match found at the earliest position after the previous match ends. No match starts in any gap. |
| Scan.ScanUnique | scripts/clean_gutenberg.py:73 | Only one sequence of matches satisfies that leftmost-first description, so `finditer` is fully determined by it. |
| Scan.Search | scripts/clean_gutenberg.py:142 | `re.search` returns the match at the first position where the pattern matches. It returns nothing exactly when no position matches. |
| Scan.ScanEmptyIff | scripts/clean_gutenberg.py:79-80 | The scan is empty exactly when the pattern matches nowhere in the text. |
| Scan.PiecesRejoin | scripts/make_lemmas.py:26 | Interleaving the pieces `re.split` leaves with the matched text rebuilds the original text. |
| Chapters.FindChapterMatches | scripts/clean_gutenberg.py:66-85 | The headings are the leftmost-first scan of the chosen tier: strict when it finds ten or more, else liberal when it finds any, else any-line. The result is empty exactly when no line starts like a chapter. Every match starts at a line start and ends at the end of its line. A number group is present exactly when the tier is not the any-line one. |
| Chapters.StrictIsLiberal | scripts/clean_gutenberg.py:72-78 | Wherever the strict heading regex matches, the liberal one matches with the same extent and group. |
| Chapters.LiberalIsAny | scripts/clean_gutenberg.py:78-84 | Wherever the liberal heading regex matches, the any-line regex matches too. |
| Chapters.NoAnyNoOther | scripts/clean_gutenberg.py:71-85 | A text with no any-line heading has no liberal heading, and a text with no liberal heading has no strict one. |
| Chapters.FoundIffAnyLine | scripts/clean_gutenberg.py:74-85 | The tier fallback finds headings exactly when some line starts like a chapter. |
| Chapters.HeadingLabelShape | scripts/clean_gutenberg.py:112 | A label made from a heading line is at most 60 characters and stripped. Its only whitespace is single plain spaces. Its visible characters are a prefix of the line's. When the collapsed line fits in 60, the label has exactly the line's words, so each whitespace run between two words became one space. |
| Chapters.CollapseKeepsWords | scripts/clean_gutenberg.py:112 | `re.sub(r'\s+', ' ', line)` keeps the line's words (`str.split()`), and starts with a visible character exactly when the line does. |
| Chapters.BuildChunks | scripts/clean_gutenberg.py:93-101 | With no headings there is one `FULL_TEXT` chunk holding the stripped text. Otherwise there is one chunk per heading. A `PREFACE` chunk comes first exactly when the stripped text before the first heading is non-empty. |
| Chapters.BuildChunksAt | scripts/clean_gutenberg.py:102-117 | The chunk for heading i carries the heading's label. Its body is the stripped heading line, a blank line, and the stripped text up to the next heading or the end. |
| Chapters.BuildChunksKeepsContent | scripts/clean_gutenberg.py:93-118 | Taken together, the chunk bodies hold every non-whitespace character of the raw text, in order. Nothing is lost or duplicated. |
| Footer.FooterCut | scripts/clean_gutenberg.py:126-131 | The cut is at the first `*** END OF THE/THIS PROJECT GUTENBERG EBOOK ... ***` banner if there is one. Otherwise it is at the first `End of the Project Gutenberg EBook` phrase. Otherwise it is at the end of the text. |
| Footer.StripFooter | scripts/clean_gutenberg.py:126-131 | The result is stripped and no longer than the input. |
| Footer.StripFooterKeepsHead | scripts/clean_gutenberg.py:129-131 | The visible text up to the cut survives exactly, and nothing after the cut survives. |
| Footer.NoFooterStrips | scripts/clean_gutenberg.py:131 | A text with neither footer form is only stripped. |
| Footer.BannerWins | scripts/clean_gutenberg.py:127-129 | Wherever a banner occurs, the cut is at or before it and on a banner, even if the fallback phrase occurs earlier. |
| Footer.NoStarsNoBanner | scripts/clean_gutenberg.py:127 | A text without `*` has no banner. |
| Reflow.NormalizeUnifiesBreaks | scripts/clean_gutenberg.py:31 | The two replacements, applied in order, equal a one-pass reference that turns every line break, whether `\r\n`, a lone `\r` or `\n`, into exactly one `\n`. |
| Reflow.LoopIsTokens | scripts/clean_gutenberg.py:33-46 | The buffer loop yields one joined paragraph per run of non-blank lines and one empty entry per blank line. |
| Reflow.ReflowIsSpec | scripts/clean_gutenberg.py:30-50 | The reflow is equal to a reference definition: the paragraphs (runs of non-blank lines, each line stripped and joined by one space, space runs squeezed) are separated by one blank line. |
| Reflow.ReflowShape | scripts/clean_gutenberg.py:31-50 | The result has no `\r` and no three newlines in a row. It has no two spaces or tabs in a row and is stripped. |
| Reflow.ReflowIdempotent | scripts/clean_gutenberg.py:30-50 | Reflowing reflowed text changes nothing. |
| Reflow.ReflowKeepsContent | scripts/clean_gutenberg.py:30-50 | The visible characters are kept exactly and in order. |
| Runs.CollapseNoPair | scripts/clean_gutenberg.py:49 | After collapsing `[ \t]{2,}` no two spaces or tabs are adjacent. |
| Runs.CollapseKeepsContent | scripts/clean_gutenberg.py:48-49 | Collapsing whitespace runs keeps every visible character in order. |
| Runs.CollapseShortRuns | scripts/clean_gutenberg.py:49 | A text with no run of two is left unchanged. |
| Runs.CollapseEmptyIff | scripts/clean_gutenberg.py:48-49 | Only the empty text collapses to the empty text. |
| Numerals.ParseDecimalOfDecimal | scripts/clean_gutenberg.py:107 | `int` of the decimal digits of n is n. |
| Numerals.ParsePad2 | scripts/clean_gutenberg.py:110 | `int` of `f"{n:02d}"` is n, so the zero padding does not change the number. |
| Numerals.Pad2Injective | scripts/clean_gutenberg.py:145 | Distinct numbers get distinct two-digit names. |
| RoundTrip.MarkerReadBack | scripts/clean_gutenberg.py:137-139 | The `[label]` marker written in front of a tidied body is read back by the reader's marker regex (make_lemmas.py:26). The regex matches at the start of the block, the bracketed name is exactly the label, and the reader's numbering (make_lemmas.py:36-42) gives the label's chapter number: n for `CHAPTER nn`, 0 for `PREFACE`, the position for `FULL_TEXT`. |
| Writer.TidyKeepsContent | scripts/clean_gutenberg.py:135-136 | A tidied body holds exactly the visible text before the footer cut, which is a prefix of the raw body's visible text. |
| Writer.TidyStable | scripts/clean_gutenberg.py:136 | A tidied body is a fixed point of the reflow. |
| Writer.PageAppend | scripts/clean_gutenberg.py:133-139 | The witness file is the chunks' blocks in chunk order. Writing two lists of chunks one after the other gives the concatenation of their pages. |
| Writer.SafeName | scripts/clean_gutenberg.py:147 | Every character is kept if it is a letter, digit, `_` or `-`, and replaced by `_` otherwise. The length is unchanged. |
| Writer.FileNameRule | scripts/clean_gutenberg.py:142-148 | For every label: when it contains `CHAPTER <digits>` in any case, heading labels included, the file is the number padded to two digits plus `.txt`, and the stem reads back as that number. Otherwise the stem is the label's first 40 characters with every character outside `[0-9A-Za-z_-]` replaced by `_`, followed by `.txt`. |
| Writer.FileNameNumbered | scripts/clean_gutenberg.py:142-145 | Chapter n is written to `nn.txt`: the number is read back out of the `CHAPTER nn` label it was written into. |
| Writer.NumberedNamesDistinct | scripts/clean_gutenberg.py:142-145 | Distinct chapter numbers go to distinct files. |
| Writer.PlainLabelName | scripts/clean_gutenberg.py:146-148 | A safe label of at most 40 characters without `CHAPTER <digits>` is its own file stem. |
| Writer.FileNamePreface | scripts/clean_gutenberg.py:146-148 | The preface goes to `PREFACE.txt`. |
| Writer.FileNameFullText | scripts/clean_gutenberg.py:146-148 | The whole-text chunk goes to `FULL_TEXT.txt`. |
| Writer.Directory | scripts/clean_gutenberg.py:141-151 | After the writes, the directory holds exactly the names that were written. |
| Writer.DirectoryLast | scripts/clean_gutenberg.py:151 | A file holds what the last write to its name wrote. |
| Writer.NumberedChaptersAllWritten | scripts/clean_gutenberg.py:141-151 | When no chunk has a free-text heading label and no two numbered chapters share a number, each numbered chapter's tidied body ends up in its own `nn.txt`. A preface or whole-text chunk may be present, because `PREFACE.txt` and `FULL_TEXT.txt` never collide with a chapter file. |
| Records.SortRecords | scripts/make_lemmas.py:45 | The rows come out sorted by chapter number, as a permutation of the input. |
| Records.Insert | scripts/make_lemmas.py:45 | Inserting adds exactly one row and keeps sorted rows sorted. |
| Records.SortStable | scripts/make_lemmas.py:45 | Rows with the same chapter number keep their relative order. |
| Records.SortSorted | scripts/make_lemmas.py:45 | Rows that are already sorted are left unchanged. |
| Records.SortedUnique | scripts/make_lemmas.py:45 | Two sorted lists that agree on the rows of every chapter number are equal. |
| Records.SortIsStableSort | scripts/make_lemmas.py:45 | Any sorted arrangement that keeps each chapter's rows in input order is the sort's result. |
| Markers.NumberedIndex | scripts/make_lemmas.py:36-38 | A `CHAPTER nn` marker is numbered n. |
| Markers.PrefaceIndex | scripts/make_lemmas.py:39-40 | A `PREFACE` marker, in any case, is numbered 0. |
| Markers.FullTextIndex | scripts/make_lemmas.py:41-42 | A `FULL_TEXT` marker takes its position among the markers, counted from 1. |
| Markers.LoadChapters | scripts/make_lemmas.py:25-46 | The rows are sorted by chapter number. |
| Markers.LoadChaptersStable | scripts/make_lemmas.py:45 | The rows are a permutation of the rows in found order. Rows with equal numbers stay in found order. |
| Markers.LoadChaptersCount | scripts/make_lemmas.py:26-44 | There is one row per marker line. When there are no marker lines, there is one more row than there are `[CHAPTER n]` prefixes. |
| Markers.RowsTrimmed | scripts/make_lemmas.py:29-35 | Every row's marker and text are stripped. |
| Markers.FallbackNumbering | scripts/make_lemmas.py:27-29 | Without marker lines, row i (from 1) is numbered i and named `CHAPTER ii`. Its text is the stripped i-th piece between `[CHAPTER n]` prefixes, and the text before the first prefix counts as a piece. |
| Markers.MarkerRowsRejoin | scripts/make_lemmas.py:26-35 | The split pieces and the marker lines rebuild the text. Each row's text has the visible characters of the piece after its marker. |
| Tokens.Words | scripts/make_lemmas.py:71 | Every word of `str.split()` is non-empty and free of whitespace. |
| Tokens.WordsContent | scripts/make_lemmas.py:71 | The words, concatenated, are the text's visible characters. |
| Tokens.WordCountZero | scripts/make_lemmas.py:71 | The word count is 0 exactly when the text is all whitespace. |
| Tokens.WordsOfJoin | scripts/make_lemmas.py:71 | Splitting words joined by single spaces gives the same words back. |
| Tokens.TokensLower | scripts/make_lemmas.py:64 | Every token is a non-empty run of lower-case letters. |
| Tokens.LemmaStringLetters | scripts/make_lemmas.py:63-65 | The lemma string holds exactly the letters of the lower-cased text, in order. |
| Tokens.LemmaStringWords | scripts/make_lemmas.py:64-71 | Splitting the lemma string gives back the tokens, so its word count is the token count. |
| Tokens.LemmaStringShape | scripts/make_lemmas.py:65 | Every character of a lemma string is a lower-case letter or a single space between two letters. |
| RoundTrip.PageRoundTrip | scripts/make_lemmas.py:25-46 | Reading back any non-empty list of written blocks gives the stable sort of the expected rows. The blocks must have readable labels and stripped bodies with no line starting with `[`. |
| RoundTrip.RoundTrip | scripts/make_lemmas.py:25-46 | Reading back the witness file that clean_gutenberg.py:133-139 writes gives one row per chunk: its label-derived number, its label and its tidied body, stably sorted. |
| RoundTrip.RoundTripKeepsOrder | scripts/make_lemmas.py:45 | On that witness file, the rows read back are a permutation of the chunks' rows. Chunks with equal numbers keep their written order. |
| RoundTrip.RoundTripChapters | scripts/make_lemmas.py:25-46 | When every chunk is a numbered chapter in non-decreasing order, row i read back is chunk i exactly: its number, `CHAPTER nn` and its tidied body. |

## Left out

- File and console I/O is not modelled. That covers reading the raw and cleaned files, creating the directory, the progress `print` calls, `pandas` and the CSV output. The model works on the text and returns the rows, the witness text and the list of written files.
- `normalize_unicode` (NFKC) is not modelled. `Writer.Tidy` treats it as the identity, because Unicode normalisation tables are outside the model.
- The spaCy lemmatizer (scripts/make_lemmas.py:52-60) is not modelled, because it calls a language model. Only the regex fallback at lines 63-65 is modelled.
- scripts/geocode_places.py is not part of this model.
- Case folding, letters, digits and `\w` are ASCII only. `str.upper`/`lower` and `[A-Za-z]` agree with this on ASCII text. Whitespace is the full `str.isspace()` set, which is also what `\s` matches.
- The Roman decoder follows the code, not a "running maximum" reading of the decoder: each symbol is compared with its right neighbour (`prev = curr`). `Roman.RomanNeighbourRule` shows where the two readings differ.
- `load_chapters` follows the code in when it takes the `[CHAPTER n]` fallback. `len(parts) < 3` holds exactly when no whole-line marker matches, so the fallback is taken with zero marker lines, not with fewer than two.
- The `[CHAPTER n]` fallback is modelled as written (`Markers.FallbackNumbering`): the piece before the first `[CHAPTER n]` always becomes row 1, even when it is empty. So whenever a `[CHAPTER n]` prefix exists, the real chapters are numbered from 2.
- The sort key's `isinstance(..., int)` test and its `9999` default are not modelled, because every index `load_chapters` computes is an integer. The final `int(...)` conversion is not modelled either.
- The `else ""` branch of scripts/make_lemmas.py:35 is not modelled, because `re.split` with one group always leaves a piece after each marker.
- `re.split(...)[0]` in `strip_gutenberg_footer` is modelled as a cut at the first match of the phrase, which is the same text.
- RoundTrip.RoundTrip requires at least one chunk, no free-text `Heading` labels, and no line of a tidied body starting with `[`. This is stronger than "no marker-shaped line", and makes every `[` that starts a line a marker. With no chunks, the witness is empty and the reader's fallback gives one empty row. A heading label is not a marker the reader knows.
- RoundTrip.PageRoundTrip has the same hypotheses as `RoundTrip.RoundTrip`.
- RoundTrip.RoundTripKeepsOrder has the same hypotheses as `RoundTrip.RoundTrip`.
- RoundTrip.RoundTripChapters has the same hypotheses as `RoundTrip.RoundTrip`, stated through `ChaptersInOrder`.
- Chapters.HeadingLabelShape states the label's words only when the collapsed line fits in 60 characters. For a longer line it states that the label's visible characters are a prefix of the line's, because the cut at 60 can split a word.
- Writer.NumberedChaptersAllWritten excludes free-text heading labels, because such a label containing `chapter <digits>` can share a file with a numbered chapter. When file names collide, `Writer.DirectoryLast` gives the last write.
