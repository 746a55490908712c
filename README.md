# wiktionary2migaku: the entry extractor, verified

wiktionary2migaku converts a Wiktionary XML dump into a dictionary in the
Migaku JSON format. This project models three string-processing parts of it
in Dafny and proves what they promise:

- `strings.dfy` (module `Strings`): the Python string operations the code
  calls, namely `strip`, `lower`, `join` and `str(n)`, plus the
  regular-expression classes `\s` and `\w` and the `.*` run to the end of a
  line. `str.replace` and `str.translate` are modelled next to their callers.
  `Find`, `FindChar`, `FindLast`, `Contains` and `Split` are not calls the
  code makes. `FindChar`, `FindLast` and `Contains` carry out the
  regular-expression searches. `Find` serves only the wikilink stand-in of
  `wikitext.dfy`, where it looks for the closing `]]`. `Split` states that the
  joined definitions read back line by line.
- `wikitext.dfy` (module `Wikitext`): a stand-in for wikitextparser's
  `plain_text()`. It renders only wikilinks: `[[target|label]]` becomes
  `label`, and `[[target]]` becomes `target`.
- `parser.dfy` (module `WikiParser`): the single-pass extractor `Parser` of
  `src/parser.py`. It covers:
  - the title-line split (`TITLE_LINE_PATTERN`, `parse_title_group`);
  - the definition-line split (`DEFINITION_PATTERN`);
  - `extract_definitions` and `parse_text` with its `â€™` repair;
  - `is_valid_mot` and `parse_match`;
  - the id numbering of `parse`.
- `language_pair_parser.dfy` (module `LanguagePairParser`): the page-to-entry
  assembly of `LanguagePairParser`. It covers `replace_smart_quotes`,
  `parse_text`, `get_page_terms`, `parse_page` and the line count of
  `count_pages`.
- `run.dfy` (module `Run`): `main` in `run.py`. It builds the parser, runs
  `parse`, and writes the terms as one JSON array using the `first_item` flag.

A match of the big term pattern arrives as a `TermMatch` record of its
captured groups. Its definition list arrives as the items wikitextparser would
give. `TITLE_LINE_PATTERN` and `DEFINITION_PATTERN` are modelled the way
Python's backtracking matcher resolves them:
- `.+` is greedy, so the title closes at the last `'''` of its line;
- `[^|}]+` takes the longest run it can;
- `(?:\|\w+)?` takes one argument or none;
- `\s?` takes one whitespace character or none.

`extract_definitions`, `parse`, `get_page_terms` and the writer loop are
methods with loops. Each is proved against a function that specifies it, and
the properties are proved about those functions as lemmas.

The title-line pattern is a `bytes` pattern, so there `\s` is ASCII
whitespace (`IsAsciiSpace`). The definition pattern is a `str` pattern, so
there `\s` is Unicode whitespace (`IsSpace`).

## Model

| member | source | states |
|---|---|---|
| WikiParser.NewParser | src/parser.py:20-23 | A parser exists exactly for the code `fr`, and then it carries the French tables. Any other code gets no table, so building `TERM_PATTERN` from it fails. |
| WikiParser.IsValidMotIff | src/parser.py:63-64 | `is_valid_mot` holds exactly when `\|fr\|` or `\|fr}}` occurs somewhere in the word template. The language is hard-coded, whatever the parser's code. |
| Strings.ContainsIff | src/parser.py:64 | The left-to-right search agrees with "occurs at some index", in both directions. |
| WikiParser.TitleClose | src/parser.py:16 | The title closes at an index `j >= 4` where `'''` occurs with no newline before it on the line. Every later `'''` lies on a later line, so this is the last one the greedy `.+` can reach. There is none exactly when the pattern does not match. |
| WikiParser.PronTemplate | src/parser.py:16 | A `{{pron\|ipa\|…}}` match gives an `ipa` without `\|`, read from right after `{{pron\|`. |
| WikiParser.ParseTitleGroup | src/parser.py:71-76 | The title is non-empty exactly when the pattern matches. Without a match all three groups are `''`. The title is the text between the opening and closing quotes, and holds no newline. The ipa holds no `\|`, and the rest holds no newline. |
| WikiParser.TitleWithoutPronunciation | src/parser.py:71-76 | A title line without `{{pron\|` gives `''` for both ipa and rest. |
| WikiParser.PronunciationAbsentAt | src/parser.py:71-76 | The pronunciation group is tried only right after the closing quotes and at most one whitespace character. When no `{{pron\|ipa\|…}}` fits there, the title is still read, and ipa and rest are `''`. |
| WikiParser.PronunciationBehindTemplate | src/parser.py:71-76 | The title group `'''title''' tail` with its newline, where the tail holds no `'` and does not start with `{{pron\|`, gives `(title, '', '')`. This holds even when a `{{pron\|…}}` appears later, as in `'''a''' {{m}} {{pron\|b\|fr}}` and its newline. |
| WikiParser.PronTemplateFound | src/parser.py:16 | `{{pron\|ipa\|lang}}` at `k` gives exactly `ipa`, and the rest starts right after the closing `}}`. |
| WikiParser.PronTemplateSound | src/parser.py:16 | A template found at `k` is one the pattern matches. The ipa runs up to a `\|`, and a non-empty `[^}]+` run free of `}` is closed by `}}`. |
| WikiParser.TitleCloseAtLast | src/parser.py:16 | When no newline comes before the last `'''`, the title closes there, whatever follows it. |
| WikiParser.TitleLineWithPronunciation | src/parser.py:71-76 | The title group `'''term''' {{pron\|ipa\|lang}}rest` with its newline, where nothing after the term holds a `'`, gives `(term, ipa, rest)`. |
| WikiParser.GrammarTemplate | src/parser.py:18 | A template match has a non-empty name without `\|` or `}`. The name is read right after `{{`, and the match ends within the item. |
| WikiParser.TemplateClose | src/parser.py:18 | The template part ends just after a `}}`, at least two characters past the name. |
| WikiParser.TemplateCloseSound | src/parser.py:18 | The closing `}}` follows the name directly, or after a `\|` and one non-empty run of word characters. |
| WikiParser.GrammarTemplateSound | src/parser.py:18 | A grammar template found at `b` is one the pattern matches. The name is the whole `[^\|}]+` run, the template closes right after it, and the optional `\s` is taken exactly when whitespace follows the `}}`. |
| WikiParser.SplitDefinitionLine | src/parser.py:86-88 | The pattern matches exactly the items that start with `#`. A grammar tag is never empty and contains no `\|` or `}`. The rest holds no newline. |
| WikiParser.GrammarTemplateWithWord | src/parser.py:18 | `{{name\|word}} ` gives the tag `name`, and the rest starts after the space. |
| WikiParser.GrammarTemplateBare | src/parser.py:18 | `{{name}} ` without an argument gives the tag `name`, and the rest starts after the space. |
| WikiParser.GrammarTemplateWithTwoWords | src/parser.py:18 | `{{name\|a\|…` does not fit the template part of the pattern. |
| WikiParser.SplitTemplateWithArgument | src/parser.py:86-88 | `# {{name\|word}} body` splits into the tag `name` and the rest `body`, whether the item ends there or a newline and further lines follow. The single argument is discarded. |
| WikiParser.SplitTemplateWithoutArgument | src/parser.py:86-88 | `# {{name}} body` splits into the tag `name` and the rest `body`, whether the item ends there or a newline and further lines follow. |
| WikiParser.SplitTemplateWithTwoArguments | src/parser.py:86-88 | An item whose template has two arguments has no grammar tag, and the whole template stays in the rest, up to the end of the line. |
| WikiParser.SplitWithoutTemplate | src/parser.py:86-88 | Without a template the grammar is absent, and everything after `# ` up to the end of the line is the rest. |
| WikiParser.ReplaceMojibakeLeavesNone | src/parser.py:69 | After the replacement no `â€™` is left, not even one formed across a replaced occurrence. |
| WikiParser.ReplaceMojibakeKeepsClean | src/parser.py:69 | A string without `â€™` is left unchanged. |
| WikiParser.ReplaceMojibakeSplit | src/parser.py:69 | Each `â€™` becomes exactly one `'`, and the text on either side of it is replaced on its own. |
| WikiParser.ParseText | src/parser.py:67-69 | `parse_text` is the plain text, stripped, with `â€™` replaced. The result holds no `â€™`. |
| WikiParser.TagNote | src/parser.py:91-92 | A `(tag)` note appears exactly when the item has a tag whose lower-cased name is in `GRAMMAR_TYPES`. The note keeps the tag's own casing. Otherwise nothing is added. |
| WikiParser.DefinitionLines | src/parser.py:85-94 | There is one numbered line per item. |
| WikiParser.FormatDefinition | src/parser.py:86-94 | One pass of the loop: appending the number, the note and the text to `d` gives the numbered line of item `i`, numbered `i + 1`. |
| WikiParser.FormatDefinitions | src/parser.py:85-94 | The loop collects the numbered line of every item, in item order. |
| WikiParser.DefinitionLineAt | src/parser.py:85-94 | Entry k of the lines is the numbered line of item k, numbered k + 1. |
| WikiParser.ExtractDefinitions | src/parser.py:78-95 | The result is `''` for an empty `defs`, and otherwise the lines of `FormatDefinitions` joined with newlines. It is `''` exactly when `defs` is. |
| WikiParser.DefinitionsEmpty | src/parser.py:81-95 | The definitions are empty exactly when `defs` is empty or the list has no item. |
| WikiParser.DefinitionsAreNumberedLines | src/parser.py:83-95 | For N >= 1 items, splitting the result at its newlines gives exactly the N numbered lines in item order. There is no trailing newline. |
| WikiParser.DefinitionLinesAreOneLine | src/parser.py:88-95 | No numbered line holds a newline. |
| WikiParser.NumberedLineIsOneLine | src/parser.py:88-93 | One numbered line holds no newline when its rest holds none and no entry of `GRAMMAR_TYPES` holds one (`TagsAreOneLine`). |
| WikiParser.DefinitionLineStartsWithNumber | src/parser.py:90 | The line of item k (counting from 0) starts with the decimal form of k + 1 and a `.`. |
| WikiParser.DefinitionLineNumber | src/parser.py:90 | On the line of item k, the first `.` follows the decimal form of k + 1, and reading that prefix back gives k + 1. |
| WikiParser.FirstLineWithKnownTag | src/parser.py:90-93 | The first line with a known tag is `1. (tag) ` followed by the text. |
| WikiParser.GrammarNoteLine | src/parser.py:86-93 | The item `# {{tag\|lang}} text`, ending there or followed by a newline, becomes `1. (tag) ` followed by the text when its tag is known. |
| WikiParser.ParseMatch | src/parser.py:42-50 | `parse_match` gives `None` exactly when the word template fails `is_valid_mot` or the title line has no title. |
| WikiParser.ParseMatchRecord | src/parser.py:51-60 | An accepted match gives this record: a non-empty term with its pronunciation, `pos` = word type, and the definitions (`''` exactly when `defs` is). `altterm`, `examples` and `audio` are `''`. |
| WikiParser.EnumeratedIdsIncrease | src/parser.py:35-40 | Every emitted id names a match, and the ids strictly increase. |
| WikiParser.EnumeratedEntries | src/parser.py:35-40 | Each emitted term is the accepted result its id names. |
| WikiParser.EnumeratedComplete | src/parser.py:35-40 | Every accepted result is emitted. |
| WikiParser.ResultsAt | src/parser.py:35-36 | Result i is what `parse_match` gives for match i. |
| WikiParser.ParsedTermsMatch | src/parser.py:35-40 | Each yielded term is the record `parse_match` builds for the match its id names. |
| WikiParser.ParsedTermComplete | src/parser.py:35-40 | Every match that `parse_match` accepts is yielded. |
| WikiParser.EnumerateAccepted | src/parser.py:35-40 | The loop yields the accepted results in order, each numbered with its match index. |
| WikiParser.Parse | src/parser.py:31-40 | `parse` yields the enumerated results of `parse_match` over the matches. |
| Wikitext.PlainTextChars | src/parser.py:68 | Rendering links only drops characters. |
| Wikitext.PlainTextLabelledLink | tests/test_parser.py:103-109 | `[[target\|label]]` followed by text renders as `label` followed by the rendered text. |
| Wikitext.PlainTextBareLink | tests/test_parser.py:103-109 | `[[target]]` followed by text renders as `target` followed by the rendered text. |
| Wikitext.PlainTextTwoLinks | tests/test_parser.py:103-109 | The shape of the test's input: a labelled link, link-free text, a bare link and more text render as the label, the text, the target and the rendered rest. |
| Wikitext.PlainTextPrefix | tests/test_parser.py:103-109 | Text without `[` passes through unchanged. |
| Strings.Strip | src/parser.py:68 | No whitespace is left at either end, and a string already without it at its ends is unchanged. |
| Strings.TrimStartDropsSpace | src/parser.py:68 | `lstrip` removes a run of whitespace from the front and nothing else. |
| Strings.TrimEndDropsSpace | src/parser.py:68 | `rstrip` removes a run of whitespace from the back and nothing else. |
| Strings.StripChars | src/parser.py:68 | Every character that stripping keeps is one of the input's. |
| Strings.LowerKeeps | src/parser.py:91 | Lower-casing keeps every character that is not an upper-case letter. |
| Strings.SplitJoin | src/parser.py:95 | Splitting a join at a separator that no part contains gives the parts back. |
| Strings.JoinSplit | src/parser.py:95 | Joining the parts of a split gives the string back. |
| Strings.JoinAppend | src/parser.py:95 | Appending one more part adds exactly one separator and the part. |
| Strings.DecimalRoundTrip | src/parser.py:90 | Reading the decimal form of n back gives n. |
| Strings.LineFrom | src/parser.py:16 | `.*` takes everything up to the next newline, and nothing with a newline. |
| Strings.LineFromBefore | src/parser.py:16 | Where a line is followed by a newline or by the end of the text, `.*` takes exactly that line. |
| LanguagePairParser.QuoteFor | src/language_parsers/_language_pair_parser.py:74-81 | The table maps a character to something other than itself exactly when it is a smart quote. What it gives is never a smart quote. |
| LanguagePairParser.ReplaceSmartQuotes | src/language_parsers/_language_pair_parser.py:73-82 | The length is kept. U+2018 and U+2019 become `'`, U+201C and U+201D become `"`, and every other character is kept. No smart quote is left. |
| LanguagePairParser.ReplaceSmartQuotesKeepsClean | src/language_parsers/_language_pair_parser.py:73-82 | A string without smart quotes is left unchanged. |
| LanguagePairParser.ReplaceSmartQuotesIdempotent | src/language_parsers/_language_pair_parser.py:73-82 | Applying it twice equals applying it once. |
| LanguagePairParser.ParseText | src/language_parsers/_language_pair_parser.py:84-90 | The result has no leading or trailing whitespace and no smart quote. |
| LanguagePairParser.ParseTextLabelledLink | src/language_parsers/_language_pair_parser.py:88-89 | A labelled wikilink renders as its label, before stripping and quote normalisation. |
| LanguagePairParser.ParseTextTwoLinks | tests/test_parser.py:103-109 | `parse_text` of the test's input shape, `[[lieu\|Lieu]] … [[personne]]s.`, is the strip and quote normalisation of `Lieu … personnes.`. |
| LanguagePairParser.KeptIndices | src/language_parsers/_language_pair_parser.py:59-62 | The kept match indices strictly increase. Each names a match with definitions, and every match with definitions is kept. |
| LanguagePairParser.PageTermsAreKept | src/language_parsers/_language_pair_parser.py:58-70 | Entry k is built from the k-th match with definitions: its term, pronunciation, pos and definitions all come from that one match, in match order. |
| LanguagePairParser.PageTermsBound | src/language_parsers/_language_pair_parser.py:58-70 | There are at most as many entries as matches. |
| LanguagePairParser.PageTermsShape | src/language_parsers/_language_pair_parser.py:63-69 | Every entry has `term` = `replace_smart_quotes(title)`, an empty `altterm` and non-empty definitions. |
| LanguagePairParser.PageTermsAppend | src/language_parsers/_language_pair_parser.py:58-70 | The entries of two stretches of matches are the entries of each, in order. |
| LanguagePairParser.GetPageTerms | src/language_parsers/_language_pair_parser.py:51-70 | The loop yields the specified entries for the page's matches. |
| LanguagePairParser.ParsePage | src/language_parsers/_language_pair_parser.py:40-49 | An empty title or text gives `[]`. Otherwise the result is the page's entries. |
| LanguagePairParser.CountWhereIsCardinality | src/language_parsers/_language_pair_parser.py:38 | Counting with a predicate gives the number of lines that satisfy it. |
| LanguagePairParser.CountPagesIsCardinality | src/language_parsers/_language_pair_parser.py:32-38 | `count_pages` is the number of lines that strip to exactly `<page>`. |
| LanguagePairParser.CountPagesBound | src/language_parsers/_language_pair_parser.py:32-38 | At most every line is counted. |
| LanguagePairParser.CountPagesAppend | src/language_parsers/_language_pair_parser.py:32-38 | Counting two files' lines is counting each. |
| Run.JsonArrayBrackets | run.py:31-38 | The written text opens with `[` and closes with `]`. |
| Run.JsonArrayEmpty | run.py:29-38 | With zero terms the text is exactly `[]`. |
| Run.JsonArrayEnds | run.py:33-38 | No comma precedes the first term and none follows the last. |
| Run.JsonArrayItemAt | run.py:31-38 | The k-th serialised term sits in the text right after `[` and the earlier terms, each followed by its comma. A comma follows it, or `]` if it is the last. This holds whatever the terms contain, commas included. |
| Run.JsonArrayReadBack | run.py:31-38 | The text determines the terms: two lists of terms with the same lengths that write the same text are equal. |
| Run.WriteJsonArray | run.py:29-38 | The loop writes `[`, the serialised terms in order joined by `,`, and `]`. Its invariant keeps `first_item` true exactly until the first term is written. |
| Run.ConvertDump | run.py:21-38 | Text is written exactly for the code `fr`. It is the JSON array of the terms `parse` yields, in order. It does not depend on `progress_bar`. |

## Left out

- The term regular expression and the dump scan (`TERM_PATTERN`, `finditer` over a memory-mapped file, `count_terms`) are left out. Their matches are an input sequence of `TermMatch` records, and `count_terms` is the length of that sequence.
- `PAGE_REGEX` and `parse_dump` are left out. A page's title and text are parameters.
- wikitextparser is a foreign library. `plain_text()` is replaced by a stand-in that renders wikilinks only, and `get_lists()[0].fullitems` is an input sequence of items (`TermMatch.defItems`).
- `json.dumps` and the `JSONEncoder` are a parameter `serialize`, whose output is opaque text.
- File I/O, tqdm, `print` and argparse are left out. The output file is the returned text.
- Bytes decoding (`decode('utf-8')`) is left out: all text is `string`.
- The vocabulary tables of `languages.fr` and the abstract `get_ipa`, `get_pos` and `get_definitions` are left out. They are parameters: a `Language` value, and the functions of a `LanguagePair`.
- `Strings.Lower`, `Strings.IsWordChar`: `str.lower()` and `\w` are modelled for code points up to U+00FF only. Beyond that, characters are kept as they are, or are not word characters.
- WikiParser.ExtractDefinitions: requires that every item starts with `#` and that a non-empty `defs` has at least one item. The term pattern guarantees both. The source would crash on a `None` match, or on `get_lists()[0]` of an empty list.
- WikiParser.NewParser: the `AttributeError` raised for a code other than `fr` is modelled as `None`.
- WikiParser.DefinitionLinesAreOneLine: requires `TagsAreOneLine`, i.e. that no entry of the left-out `GRAMMAR_TYPES` table holds a newline. That table is not part of this model, so the fact is assumed rather than proved.
- WikiParser.DefinitionsAreNumberedLines: requires the same `TagsAreOneLine` fact about `GRAMMAR_TYPES`.
- WikiParser.NumberedLineIsOneLine: requires the same `TagsAreOneLine` fact about `GRAMMAR_TYPES`.
- WikiParser.DefinitionLinesAreOneLine, WikiParser.DefinitionsAreNumberedLines: both also rest on `ParseTextIsOneLine`. That lemma follows from `Wikitext.PlainTextChars`, which says the stand-in renderer adds no character, so no newline either. wikitextparser's real `plain_text()`, which for example decodes entities such as `&#10;`, is not shown to keep this.
- WikiParser.Parse: its ensures is the equality with the specifying functions. The properties of `parse` (ids, order, completeness) are proved as separate lemmas about those functions.
- Parallel workers and the merging of their results are left out: there is no such code in the modelled files.
