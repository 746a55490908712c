/**
 * The page-to-entries assembly of `LanguagePairParser`
 * (`src/language_parsers/_language_pair_parser.py`).
 *
 * The page regular expression, the term regular expression of a subclass and
 * the abstract extractors `get_ipa`, `get_pos` and `get_definitions` are not
 * part of this model: a `LanguagePair` carries them as functions, and the
 * matches of the term expression on a page are what `findTerms` gives.
 */
module LanguagePairParser {
  import opened Strings
  import Wikitext

  // ------------------------------------------------------------ replace_smart_quotes

  /** One of the four typographic quotes: U+2018, U+2019, U+201C, U+201D. */
  predicate IsSmartQuote(c: char)
  {
    c == '\U{2018}' || c == '\U{2019}' || c == '\U{201C}' || c == '\U{201D}'
  }

  predicate NoSmartQuotes(s: string)
  {
    forall i :: 0 <= i < |s| ==> !IsSmartQuote(s[i])
  }

  /** The translation table: single quotes become `'`, double quotes `"`. */
  function QuoteFor(c: char): (r: char)
    ensures !IsSmartQuote(r)
    ensures IsSmartQuote(c) <==> r != c
  {
    if c == '\U{2018}' || c == '\U{2019}' then '\''
    else if c == '\U{201C}' || c == '\U{201D}' then '"'
    else c
  }

  /** `replace_smart_quotes`: `str.translate` with the table, character by character. */
  function ReplaceSmartQuotes(s: string): (r: string)
    ensures |r| == |s|
    ensures forall i :: 0 <= i < |s| ==>
      && ((s[i] == '\U{2018}' || s[i] == '\U{2019}') ==> r[i] == '\'')
      && ((s[i] == '\U{201C}' || s[i] == '\U{201D}') ==> r[i] == '"')
      && (!IsSmartQuote(s[i]) ==> r[i] == s[i])
    ensures NoSmartQuotes(r)
    decreases |s|
  {
    if s == [] then [] else [QuoteFor(s[0])] + ReplaceSmartQuotes(s[1..])
  }

  /** A string without smart quotes is left as it is. */
  lemma {:induction false} ReplaceSmartQuotesKeepsClean(s: string)
    requires NoSmartQuotes(s)
    ensures ReplaceSmartQuotes(s) == s
    decreases |s|
  {
    if s != [] {
      ReplaceSmartQuotesKeepsClean(s[1..]);
    }
  }

  /** Replacing twice is replacing once. */
  lemma ReplaceSmartQuotesIdempotent(s: string)
    ensures ReplaceSmartQuotes(ReplaceSmartQuotes(s)) == ReplaceSmartQuotes(s)
  {
    ReplaceSmartQuotesKeepsClean(ReplaceSmartQuotes(s));
  }

  // ------------------------------------------------------------ parse_text

  /** `parse_text`: plain text of the markup, stripped, with smart quotes normalised. */
  function ParseText(s: string): (r: string)
    ensures r == [] || (!IsSpace(r[0]) && !IsSpace(r[|r| - 1]))
    ensures NoSmartQuotes(r)
  {
    var t := Strip(Wikitext.PlainText(s));
    var r := ReplaceSmartQuotes(t);
    assert r != [] ==> !IsSmartQuote(t[0]) || !IsSpace(r[0]);
    r
  }

  /** The wikilinks of the text are rendered: `[[target|caption]] rest` reads
      as `caption rest`, before stripping and quote normalisation. */
  lemma ParseTextLabelledLink(target: string, caption: string, rest: string)
    requires '|' !in target && ']' !in target && ']' !in caption && '[' !in rest
    ensures ParseText("[[" + target + "|" + caption + "]]" + rest)
            == ReplaceSmartQuotes(Strip(caption + rest))
  {
    Wikitext.PlainTextLabelledLink(target, caption, rest);
    Wikitext.PlainTextPrefix(rest, []);
    assert rest + [] == rest;
  }

  /** Two links in one text, as in a definition that links two words: each
      renders as the text it shows, before stripping and quote normalisation. */
  lemma ParseTextTwoLinks(t: string, c: string, a: string, u: string, b: string)
    requires '|' !in t && ']' !in t && ']' !in c && '[' !in a && '|' !in u && ']' !in u && '[' !in b
    ensures ParseText("[[" + t + "|" + c + "]]" + (a + ("[[" + u + "]]" + b)))
            == ReplaceSmartQuotes(Strip(c + (a + (u + b))))
  {
    Wikitext.PlainTextTwoLinks(t, c, a, u, b);
    Wikitext.PlainTextPrefix(b, []);
    assert b + [] == b;
  }

  // ------------------------------------------------------------ get_page_terms

  /** A concrete language pair: its term matches on a page and the three
      extractors a subclass defines. */
  datatype LanguagePair<!M> = LanguagePair(
    findTerms: string -> seq<M>,
    getIpa: M -> string,
    getPos: M -> string,
    getDefinitions: M -> string)

  /** The dict `get_page_terms` appends for one match. */
  datatype PageEntry = PageEntry(
    term: string,
    altterm: string,
    pronunciation: string,
    pos: string,
    definition: string)

  /** The entry for one match: the page title with its quotes normalised, no
      alternative term, and the match's pronunciation, part of speech and
      definitions. */
  function EntryFor<M>(lp: LanguagePair<M>, title: string, m: M): PageEntry
  {
    PageEntry(ReplaceSmartQuotes(title), "", lp.getIpa(m), lp.getPos(m), lp.getDefinitions(m))
  }

  /** The entries of the matches `ms` in order, skipping those without definitions. */
  function PageTerms<M>(lp: LanguagePair<M>, title: string, ms: seq<M>): seq<PageEntry>
    decreases |ms|
  {
    if ms == [] then []
    else
      var n := |ms| - 1;
      PageTerms(lp, title, ms[..n])
        + (if lp.getDefinitions(ms[n]) == "" then [] else [EntryFor(lp, title, ms[n])])
  }

  /** The indices of the matches that have definitions, in increasing order. */
  function Kept<M>(lp: LanguagePair<M>, ms: seq<M>): seq<nat>
    decreases |ms|
  {
    if ms == [] then []
    else
      var n := |ms| - 1;
      Kept(lp, ms[..n]) + (if lp.getDefinitions(ms[n]) == "" then [] else [n])
  }

  /** The kept indices increase strictly, each names a match with definitions,
      and every match with definitions is kept. */
  lemma {:induction false} KeptIndices<M>(lp: LanguagePair<M>, ms: seq<M>)
    ensures forall a, b :: 0 <= a < b < |Kept(lp, ms)| ==> Kept(lp, ms)[a] < Kept(lp, ms)[b]
    ensures forall k :: 0 <= k < |Kept(lp, ms)| ==>
      Kept(lp, ms)[k] < |ms| && lp.getDefinitions(ms[Kept(lp, ms)[k]]) != ""
    ensures forall i :: 0 <= i < |ms| && lp.getDefinitions(ms[i]) != "" ==> i in Kept(lp, ms)
    decreases |ms|
  {
    if ms != [] {
      var n := |ms| - 1;
      KeptIndices(lp, ms[..n]);
      assert forall i :: 0 <= i < n ==> ms[..n][i] == ms[i];
    }
  }

  /** Entry k is the entry of the k-th match with definitions: the entries are
      those matches' entries, in match order. */
  lemma {:induction false} PageTermsAreKept<M>(lp: LanguagePair<M>, title: string, ms: seq<M>)
    ensures |PageTerms(lp, title, ms)| == |Kept(lp, ms)|
    ensures forall k :: 0 <= k < |Kept(lp, ms)| ==>
      Kept(lp, ms)[k] < |ms| && PageTerms(lp, title, ms)[k] == EntryFor(lp, title, ms[Kept(lp, ms)[k]])
    decreases |ms|
  {
    if ms != [] {
      var n := |ms| - 1;
      PageTermsAreKept(lp, title, ms[..n]);
      KeptIndices(lp, ms[..n]);
      assert forall i :: 0 <= i < n ==> ms[..n][i] == ms[i];
    }
  }

  /** At most one entry per match. */
  lemma {:induction false} PageTermsBound<M>(lp: LanguagePair<M>, title: string, ms: seq<M>)
    ensures |PageTerms(lp, title, ms)| <= |ms|
    decreases |ms|
  {
    if ms != [] {
      PageTermsBound(lp, title, ms[..|ms| - 1]);
    }
  }

  /** Every entry of a page carries the normalised title, no alternative term and
      non-empty definitions. */
  lemma {:induction false} PageTermsShape<M>(lp: LanguagePair<M>, title: string, ms: seq<M>)
    ensures forall k :: 0 <= k < |PageTerms(lp, title, ms)| ==>
      var e := PageTerms(lp, title, ms)[k];
      e.term == ReplaceSmartQuotes(title) && e.altterm == "" && e.definition != ""
    decreases |ms|
  {
    if ms != [] {
      PageTermsShape(lp, title, ms[..|ms| - 1]);
    }
  }

  /** The matches of two stretches of text give the entries of each, in order. */
  lemma {:induction false} PageTermsAppend<M>(lp: LanguagePair<M>, title: string, xs: seq<M>, ys: seq<M>)
    ensures PageTerms(lp, title, xs + ys) == PageTerms(lp, title, xs) + PageTerms(lp, title, ys)
    decreases |ys|
  {
    if ys == [] {
      assert xs + ys == xs;
    } else {
      var n := |ys| - 1;
      assert (xs + ys)[..|xs| + n] == xs + ys[..n];
      assert (xs + ys)[|xs| + n] == ys[n];
      PageTermsAppend(lp, title, xs, ys[..n]);
    }
  }

  /** `get_page_terms`: one entry per term match whose definitions are not empty. */
  method GetPageTerms<M>(lp: LanguagePair<M>, title: string, text: string) returns (terms: seq<PageEntry>)
    ensures terms == PageTerms(lp, title, lp.findTerms(text))
  {
    var ms := lp.findTerms(text);
    terms := [];
    for i := 0 to |ms|
      invariant terms == PageTerms(lp, title, ms[..i])
    {
      assert ms[..i + 1][..i] == ms[..i];
      var definitions := lp.getDefinitions(ms[i]);
      if definitions == "" {
        continue;
      }
      terms := terms + [EntryFor(lp, title, ms[i])];
    }
    assert ms[..|ms|] == ms;
  }

  // ------------------------------------------------------------ parse_page

  /** `parse_page`: nothing for a page whose title or text is empty, otherwise
      the entries of its term matches. */
  method ParsePage<M>(lp: LanguagePair<M>, title: string, text: string) returns (terms: seq<PageEntry>)
    ensures title == "" || text == "" ==> terms == []
    ensures title != "" && text != "" ==> terms == PageTerms(lp, title, lp.findTerms(text))
  {
    if title == "" || text == "" {
      return [];
    }
    terms := GetPageTerms(lp, title, text);
  }

  // ------------------------------------------------------------ count_pages

  /** A line that is `<page>` once whitespace is stripped. */
  predicate IsPageLine(line: string)
  {
    Strip(line) == "<page>"
  }

  /** How many of `lines` satisfy `keep`. */
  function CountWhere(lines: seq<string>, keep: string -> bool): nat
    decreases |lines|
  {
    if lines == [] then 0
    else CountWhere(lines[..|lines| - 1], keep) + (if keep(lines[|lines| - 1]) then 1 else 0)
  }

  /** The indices of the lines that satisfy `keep`. */
  function IndicesWhere(lines: seq<string>, keep: string -> bool): set<nat>
  {
    set i: nat | i < |lines| && keep(lines[i])
  }

  /** Counting is the number of lines that satisfy the predicate. */
  lemma {:induction false} CountWhereIsCardinality(lines: seq<string>, keep: string -> bool)
    ensures CountWhere(lines, keep) == |IndicesWhere(lines, keep)|
    decreases |lines|
  {
    if lines != [] {
      var n := |lines| - 1;
      var pre := lines[..n];
      CountWhereIsCardinality(pre, keep);
      var before := IndicesWhere(pre, keep);
      var all := IndicesWhere(lines, keep);
      forall i: nat ensures i in all <==> i in before || (keep(lines[n]) && i == n) {
        if i < n {
          assert pre[i] == lines[i];
        }
      }
      if keep(lines[n]) {
        assert all == before + {n};
      } else {
        assert all == before;
      }
    }
  }

  /** At most every line is counted. */
  lemma {:induction false} CountWhereBound(lines: seq<string>, keep: string -> bool)
    ensures CountWhere(lines, keep) <= |lines|
    decreases |lines|
  {
    if lines != [] {
      CountWhereBound(lines[..|lines| - 1], keep);
    }
  }

  /** Counting over two stretches of lines adds up. */
  lemma {:induction false} CountWhereAppend(xs: seq<string>, ys: seq<string>, keep: string -> bool)
    ensures CountWhere(xs + ys, keep) == CountWhere(xs, keep) + CountWhere(ys, keep)
    decreases |ys|
  {
    if ys == [] {
      assert xs + ys == xs;
    } else {
      var n := |ys| - 1;
      assert (xs + ys)[..|xs| + n] == xs + ys[..n];
      assert (xs + ys)[|xs| + n] == ys[n];
      CountWhereAppend(xs, ys[..n], keep);
    }
  }

  /** `count_pages`: the number of `<page>` lines. */
  function CountPages(lines: seq<string>): nat
  {
    CountWhere(lines, IsPageLine)
  }

  /** The count is the number of lines that are `<page>` once stripped. */
  lemma CountPagesIsCardinality(lines: seq<string>)
    ensures CountPages(lines) == |IndicesWhere(lines, IsPageLine)|
  {
    CountWhereIsCardinality(lines, IsPageLine);
  }

  /** At most every line opens a page. */
  lemma CountPagesBound(lines: seq<string>)
    ensures CountPages(lines) <= |lines|
  {
    CountWhereBound(lines, IsPageLine);
  }

  /** Counting two files' lines is counting each. */
  lemma CountPagesAppend(xs: seq<string>, ys: seq<string>)
    ensures CountPages(xs + ys) == CountPages(xs) + CountPages(ys)
  {
    CountWhereAppend(xs, ys, IsPageLine);
  }
}
