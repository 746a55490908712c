/**
 * The single-pass term extractor of `src/parser.py` (class `Parser`).
 *
 * The regular-expression scan of the dump (`TERM_PATTERN` with `finditer`)
 * is not modelled: its matches arrive as `TermMatch` records holding the
 * captured groups. The two small patterns applied to those groups,
 * `TITLE_LINE_PATTERN` and `DEFINITION_PATTERN`, are modelled as Python's
 * backtracking matcher resolves them, with `\w` covering code points up to
 * U+00FF only (`Strings.IsWordChar`).
 */
module WikiParser {
  import opened Strings
  import Wikitext

  /** A per-language vocabulary table (`languages.fr.French`). */
  datatype Language = Language(wordTypes: set<string>, grammarTypes: set<string>)

  /** A `Parser`: its fields are set once, in `__init__`, and never change. */
  datatype Parser = Parser(languageCode: string, language: Language)

  /** One match of `TERM_PATTERN`, as its captured groups. `defItems` stands for
      what wikitextparser gives as `get_lists()[0].fullitems` for `defs`. */
  datatype TermMatch = TermMatch(
    wordTemplate: string,
    wordType: string,
    titleGroup: string,
    defs: string,
    defItems: seq<string>)

  /** The record `parse_match` builds (a dict with these keys). */
  datatype Term = Term(
    term: string,
    altterm: string,
    pronunciation: string,
    pos: string,
    definition: string,
    examples: string,
    audio: string)

  /** A record after `parse` has set its `id`. */
  datatype NumberedTerm = NumberedTerm(id: nat, entry: Term)

  // ------------------------------------------------------------ construction

  /** `get_language`: only the code `fr` has a table; every other code gives `None`. */
  function GetLanguage(code: string, french: Language): Option<Language>
  {
    if code == "fr" then Some(french) else None
  }

  /** `Parser.__init__`. Building `TERM_PATTERN` reads the table's `WORD_TYPES`,
      which fails on the `None` that `get_language` gives for any code but `fr`. */
  function NewParser(code: string, french: Language): (r: Option<Parser>)
    ensures r.Some? <==> code == "fr"
    ensures r.Some? ==> r.value.languageCode == "fr" && r.value.language == french
  {
    match GetLanguage(code, french)
    case None => None
    case Some(language) => Some(Parser(code, language))
  }

  // ------------------------------------------------------------ is_valid_mot

  /** `is_valid_mot`: the word template names the language `fr` as an argument
      (`|fr|` or `|fr}}`), whatever code the parser was built for. */
  predicate IsValidMot(wordTemplate: string)
  {
    Contains(wordTemplate, "|fr|") || Contains(wordTemplate, "|fr}}")
  }

  lemma IsValidMotIff(wordTemplate: string)
    ensures IsValidMot(wordTemplate) <==>
      exists i :: OccursAt(wordTemplate, "|fr|", i) || OccursAt(wordTemplate, "|fr}}", i)
  {
    ContainsIff(wordTemplate, "|fr|");
    ContainsIff(wordTemplate, "|fr}}");
  }

  // ------------------------------------------------------------ the title line

  /** The three groups `parse_title_group` returns. */
  datatype TitleLine = TitleLine(title: string, ipa: string, rest: string)

  /** `'''` occurs at `j`. */
  predicate QuotesAt(s: string, j: int)
  {
    0 <= j && j + 3 <= |s| && s[j] == '\'' && s[j + 1] == '\'' && s[j + 2] == '\''
  }

  /** `TITLE_LINE_PATTERN` matches `s`: it opens with `'''` and a later `'''`
      closes a non-empty title on the same line. */
  ghost predicate TitleLineMatches(s: string)
  {
    QuotesAt(s, 0) && exists j :: 4 <= j && QuotesAt(s, j) && '\n' !in s[3..j]
  }

  /** The end of the first line of `s` after the opening quotes. */
  function FirstLineEnd(s: string): (e: nat)
    requires 3 <= |s|
    ensures 3 <= e <= |s| && '\n' !in s[3..e] && (e == |s| || s[e] == '\n')
  {
    match FindChar(s, '\n', 3)
    case None => |s|
    case Some(e) => e
  }

  /** Where the title's closing `'''` starts. The greedy `.+` makes it the last
      `'''` of the first line, not the first one. */
  function TitleClose(s: string): (r: Option<nat>)
    ensures r.Some? ==> 4 <= r.value && QuotesAt(s, r.value) && '\n' !in s[3..r.value]
    ensures r.Some? ==> forall j :: r.value < j && QuotesAt(s, j) ==> '\n' in s[3..j]
    ensures r.None? <==> !TitleLineMatches(s)
  {
    if !QuotesAt(s, 0) then None
    else
      var e := FirstLineEnd(s);
      var r := FindLast(s, "'''", 4, e);
      QuotesAtIff(s);
      FirstLineNewlines(s, e);
      r
  }

  /** `QuotesAt` is an occurrence of `'''`. */
  lemma QuotesAtIff(s: string)
    ensures forall j :: QuotesAt(s, j) <==> OccursAt(s, "'''", j)
  {
  }

  /** Which prefixes of `s[3..]` reach past the first line ending at `e`. */
  lemma FirstLineNewlines(s: string, e: nat)
    requires 3 <= e <= |s| && '\n' !in s[3..e] && (e == |s| || s[e] == '\n')
    ensures forall j :: 3 <= j <= e ==> '\n' !in s[3..j]
    ensures forall j :: e < j <= |s| ==> '\n' in s[3..j]
  {
    forall j | 3 <= j <= e ensures '\n' !in s[3..j] { assert s[3..j] == s[3..e][..j - 3]; }
    forall j | e < j <= |s| ensures '\n' in s[3..j] { assert s[3..j][e - 3] == '\n'; }
  }

  /** The `{{pron|ipa|...}}` template at `k`: the pronunciation and the index
      where the `rest` group starts. */
  function PronTemplate(s: string, k: nat): (r: Option<(string, nat)>)
    ensures r.Some? ==> '|' !in r.value.0 && r.value.1 <= |s|
    ensures r.Some? ==> OccursAt(s, "{{pron|", k) && k + 7 + |r.value.0| <= |s|
                        && r.value.0 == s[k + 7..k + 7 + |r.value.0|]
  {
    if !OccursAt(s, "{{pron|", k) then None
    else
      var p := k + 7;
      match FindChar(s, '|', p)
      case None => None
      case Some(q) =>
        assert forall i :: 0 <= i < q - p ==> s[p..q][i] == s[p + i];
        match FindChar(s, '}', q + 1)
        case None => None
        case Some(e) =>
          if e > q + 1 && e + 1 < |s| && s[e + 1] == '}' then Some((s[p..q], e + 2)) else None
  }

  /** `parse_title_group`: the title, the pronunciation and the rest of the
      title line, or three empty strings when the pattern does not match. */
  function ParseTitleGroup(s: string): (r: TitleLine)
    ensures r.title != "" <==> TitleLineMatches(s)
    ensures r.title == "" ==> r == TitleLine("", "", "")
    ensures r.title != "" ==>
      QuotesAt(s, 0) && QuotesAt(s, 3 + |r.title|) && r.title == s[3..3 + |r.title|]
    ensures '\n' !in r.title && '|' !in r.ipa && '\n' !in r.rest
  {
    match TitleClose(s)
    case None => TitleLine("", "", "")
    case Some(j) => TitleGroupAfter(s, j)
  }

  /** The groups of a title line whose title closes at `j`: an optional space,
      then an optional `{{pron|...}}` template and the rest of the line. */
  function TitleGroupAfter(s: string, j: nat): (r: TitleLine)
    requires 3 <= j && j + 3 <= |s|
    ensures r.title == s[3..j] && '|' !in r.ipa && '\n' !in r.rest
  {
    var after := j + 3;
    var k := if after < |s| && IsAsciiSpace(s[after]) then after + 1 else after;
    match PronTemplate(s, k)
    case None => TitleLine(s[3..j], "", "")
    case Some(pron) => TitleLine(s[3..j], pron.0, LineFrom(s, pron.1))
  }

  /** Without a `{{pron|` template on the line, the pronunciation and the rest are empty. */
  lemma TitleWithoutPronunciation(s: string)
    requires !Contains(s, "{{pron|")
    ensures ParseTitleGroup(s).ipa == "" && ParseTitleGroup(s).rest == ""
  {
    ContainsIff(s, "{{pron|");
  }

  /** The optional pronunciation group is tried at one place only: right after
      the closing quotes and at most one whitespace character. When no
      `{{pron|ipa|...}}` template fits there, the pronunciation and the rest
      are empty, even if such a template appears later on the line. */
  lemma PronunciationAbsentAt(s: string, j: nat, k: nat)
    requires TitleClose(s) == Some(j)
    requires k == if j + 3 < |s| && IsAsciiSpace(s[j + 3]) then j + 4 else j + 3
    requires PronTemplate(s, k) == None
    ensures ParseTitleGroup(s).title == s[3..j]
    ensures ParseTitleGroup(s).ipa == "" && ParseTitleGroup(s).rest == ""
  {
  }

  /** A pronunciation template anywhere but right after the title is not read:
      the title group `'''a''' {{m}} {{pron|b|fr}}` and its newline has the
      title `a` and nothing else. */
  lemma PronunciationBehindTemplate(s: string, title: string, tail: string)
    requires title != "" && '\n' !in title && '\n' !in tail && '\'' !in tail
    requires !OccursAt(tail, "{{pron|", 0)
    requires s == "'''" + title + "''' " + tail + "\n"
    ensures ParseTitleGroup(s) == TitleLine(title, "", "")
  {
    var j := 3 + |title|;
    TitleBeforeTail(s, title, tail);
    assert !OccursAt(s, "{{pron|", j + 4) by {
      if j + 11 <= |s| {
        if |tail| >= 7 {
          assert s[j + 4..j + 11] == tail[..7];
        } else {
          assert s[j + 4..j + 11][|tail|] == s[j + 4..][|tail|] == '\n';
        }
      }
    }
    PronunciationAbsentAt(s, j, j + 4);
  }

  /** A `{{pron|ipa|lang}}` template at `k` gives `ipa`, and the rest starts after it. */
  lemma PronTemplateFound(s: string, k: nat, ipa: string, lang: string)
    requires '|' !in ipa && lang != "" && '}' !in lang
    requires OccursAt(s, "{{pron|" + ipa + "|" + lang + "}}", k)
    ensures PronTemplate(s, k) == Some((ipa, k + 10 + |ipa| + |lang|))
  {
    OccursAtSplit(s, "{{pron|" + ipa + "|" + lang, "}}", k);
    OccursAtSplit(s, "{{pron|" + ipa + "|", lang, k);
    OccursAtSplit(s, "{{pron|" + ipa, "|", k);
    OccursAtSplit(s, "{{pron|", ipa, k);
    PronTemplateParts(s, k, ipa, lang);
  }

  /** Conversely, a template found at `k` is one the pattern matches: the
      pronunciation runs up to the first `|`, and the first `}` after a
      non-empty `[^}]+` run is the start of the closing `}}`. */
  lemma PronTemplateSound(s: string, k: nat, ipa: string, e: nat)
    requires PronTemplate(s, k) == Some((ipa, e))
    ensures OccursAt(s, "{{pron|", k) && '|' !in ipa && OccursAt(s, ipa, k + 7)
    ensures k + 7 + |ipa| < |s| && s[k + 7 + |ipa|] == '|'
    ensures k + 11 + |ipa| <= e <= |s| && OccursAt(s, "}}", e - 2)
    ensures forall i :: k + 8 + |ipa| <= i < e - 2 ==> s[i] != '}'
  {
  }

  /** `PronTemplateFound`, piece by piece. */
  lemma PronTemplateParts(s: string, k: nat, ipa: string, lang: string)
    requires '|' !in ipa && lang != "" && '}' !in lang
    requires OccursAt(s, "{{pron|", k) && OccursAt(s, ipa, k + 7) && OccursAt(s, "|", k + 7 + |ipa|)
    requires OccursAt(s, lang, k + 8 + |ipa|) && OccursAt(s, "}}", k + 8 + |ipa| + |lang|)
    ensures PronTemplate(s, k) == Some((ipa, k + 10 + |ipa| + |lang|))
  {
    var p := k + 7;
    var q := p + |ipa|;
    var e := q + 1 + |lang|;
    assert s[q] == "|"[0] && s[e] == "}}"[0] && s[e + 1] == "}}"[1];
    FindCharAfter(s, '|', p, ipa);
    FindCharAfter(s, '}', q + 1, lang);
  }

  /** The title closes at the last `'''`, when no newline comes before it. */
  lemma TitleCloseAtLast(s: string, j: nat)
    requires 4 <= j && QuotesAt(s, 0) && QuotesAt(s, j) && '\n' !in s[3..j]
    requires forall i :: j < i ==> !QuotesAt(s, i)
    ensures TitleClose(s) == Some(j)
  {
    forall i | 3 <= i < j ensures s[i] != '\n' { assert s[i] == s[3..j][i - 3]; }
  }

  /** A title group `'''title''' tail` and its newline, whose tail holds no
      quote, closes its title after `title`, and one space separates it from `tail`. */
  lemma TitleBeforeTail(s: string, title: string, tail: string)
    requires title != "" && '\n' !in title && '\n' !in tail && '\'' !in tail
    requires s == "'''" + title + "''' " + tail + "\n"
    ensures && TitleClose(s) == Some(3 + |title|) && IsAsciiSpace(s[6 + |title|])
            && s[3..3 + |title|] == title && s[7 + |title|..] == tail + "\n"
  {
    var j := 3 + |title|;
    var k := j + 4;
    assert s[k..] == tail + "\n";
    assert s[3..j] == title;
    forall i | j + 3 <= i < |s| ensures s[i] != '\'' {
      if i >= k { assert s[i] == (tail + "\n")[i - k]; }
    }
    TitleCloseAtLast(s, j);
  }

  /** A pronunciation template and what follows it hold no quote and no newline
      when its parts hold none. */
  lemma PronTailClean(ipa: string, lang: string, rest: string)
    requires '\n' !in ipa + lang + rest && '\'' !in ipa + lang + rest
    ensures var tail := "{{pron|" + ipa + "|" + lang + "}}" + rest;
      '\n' !in tail && '\'' !in tail
  {
    var t := "{{pron|" + ipa + "|" + lang + "}}";
    var tail := t + rest;
    forall i | 0 <= i < |tail| ensures tail[i] != '\n' && tail[i] != '\'' {
      if 7 <= i < 7 + |ipa| {
        assert tail[i] == (ipa + lang + rest)[i - 7];
      } else if 8 + |ipa| <= i < |t| - 2 {
        assert tail[i] == (ipa + lang + rest)[i - 8];
      } else if i >= |t| {
        assert tail[i] == (ipa + lang + rest)[i - 10];
      }
    }
  }

  /** The title group of a typical entry, `'''term''' {{pron|ipa|lang}}rest` and
      its newline, gives the term, the pronunciation and the rest, when nothing
      after the term holds a quote. */
  lemma TitleLineWithPronunciation(s: string, title: string, ipa: string, lang: string, rest: string)
    requires title != "" && '\n' !in title
    requires '|' !in ipa && lang != "" && '}' !in lang
    requires '\n' !in ipa + lang + rest && '\'' !in ipa + lang + rest
    requires s == "'''" + title + "''' " + ("{{pron|" + ipa + "|" + lang + "}}" + rest) + "\n"
    ensures ParseTitleGroup(s) == TitleLine(title, ipa, rest)
  {
    var j := 3 + |title|;
    var e := j + 14 + |ipa| + |lang|;
    TitleLinePieces(s, j, e, title, ipa, lang, rest);
    TitleGroupParts(s, j, e, title, ipa, rest);
  }

  /** The facts `TitleGroupParts` needs about a typical title line. */
  lemma TitleLinePieces(s: string, j: nat, e: nat, title: string, ipa: string, lang: string, rest: string)
    requires title != "" && '\n' !in title
    requires '|' !in ipa && lang != "" && '}' !in lang
    requires '\n' !in ipa + lang + rest && '\'' !in ipa + lang + rest
    requires s == "'''" + title + "''' " + ("{{pron|" + ipa + "|" + lang + "}}" + rest) + "\n"
    requires j == 3 + |title| && e == j + 14 + |ipa| + |lang|
    ensures TitleClose(s) == Some(j) && j + 3 < |s| && IsAsciiSpace(s[j + 3])
    ensures e <= |s| && PronTemplate(s, j + 4) == Some((ipa, e))
    ensures s[3..j] == title && s[e..] == rest + "\n" && '\n' !in rest
  {
    var tail := "{{pron|" + ipa + "|" + lang + "}}" + rest;
    assert TitleClose(s) == Some(j) && IsAsciiSpace(s[j + 3]) && s[3..j] == title
           && s[j + 4..] == tail + "\n" by {
      PronTailClean(ipa, lang, rest);
      assert s == "'''" + title + "''' " + tail + "\n";
      TitleBeforeTail(s, title, tail);
    }
    assert PronTemplate(s, j + 4) == Some((ipa, e)) && s[e..] == rest + "\n" by {
      assert s[j + 4..] == "{{pron|" + ipa + "|" + lang + "}}" + (rest + "\n");
      PronTemplateBeforeRest(s, j + 4, e, ipa, lang, rest + "\n");
    }
    assert '\n' !in rest by { assert rest == (ipa + lang + rest)[|ipa| + |lang|..]; }
  }

  /** A line whose tail from `k` is `{{pron|ipa|lang}}rest` has that template at `k`,
      and `rest` follows it. */
  lemma PronTemplateBeforeRest(s: string, k: nat, e: nat, ipa: string, lang: string, rest: string)
    requires '|' !in ipa && lang != "" && '}' !in lang && e == k + 10 + |ipa| + |lang|
    requires k <= |s| && s[k..] == "{{pron|" + ipa + "|" + lang + "}}" + rest
    ensures e <= |s| && PronTemplate(s, k) == Some((ipa, e)) && s[e..] == rest
  {
    var t := "{{pron|" + ipa + "|" + lang + "}}";
    assert |t| == 10 + |ipa| + |lang|;
    assert OccursAt(s, t, k) by {
      assert s[k..k + |t|] == s[k..][..|t|];
    }
    assert s[e..] == rest by {
      assert s[e..] == s[k..][|t|..];
    }
    PronTemplateFound(s, k, ipa, lang);
  }

  /** `TitleLineWithPronunciation`, piece by piece. */
  lemma TitleGroupParts(s: string, j: nat, e: nat, title: string, ipa: string, rest: string)
    requires TitleClose(s) == Some(j) && j + 3 < |s| && IsAsciiSpace(s[j + 3])
    requires PronTemplate(s, j + 4) == Some((ipa, e)) && e <= |s|
    requires s[3..j] == title && s[e..] == rest + "\n" && '\n' !in rest
    ensures ParseTitleGroup(s) == TitleLine(title, ipa, rest)
  {
    LineFromBefore(s, e, rest, "\n");
    assert LineFrom(s, e) == rest;
    assert PronTemplate(s, j + 4) == Some((ipa, e));
    var r := TitleGroupAfter(s, j);
    assert r.title == title;
    assert r.ipa == ipa;
    assert r.rest == rest;
    assert ParseTitleGroup(s) == r;
  }

  // ------------------------------------------------------------ a definition line

  /** The optional grammar template and the rest of one numbered definition. */
  datatype DefinitionLine = DefinitionLine(grammar: Option<string>, rest: string)

  /** An item of a numbered wiki list starts with `#`. */
  predicate IsListItem(item: string)
  {
    |item| > 0 && item[0] == '#'
  }

  predicate AllListItems(items: seq<string>)
  {
    forall k :: 0 <= k < |items| ==> IsListItem(items[k])
  }

  /** The end of the run of characters other than `|` and `}` from `from` (`[^|}]+`). */
  function NameEnd(s: string, from: nat): (r: nat)
    requires from <= |s|
    ensures from <= r <= |s|
    ensures forall i :: from <= i < r ==> s[i] != '|' && s[i] != '}'
    ensures r == |s| || s[r] == '|' || s[r] == '}'
    decreases |s| - from
  {
    if from < |s| && s[from] != '|' && s[from] != '}' then NameEnd(s, from + 1) else from
  }

  /** The grammar template `{{name}}` or `{{name|word}}` at `b`, followed by at
      most one whitespace character: its name and the index after it. */
  function GrammarTemplate(s: string, b: nat): (r: Option<(string, nat)>)
    requires b <= |s|
    ensures r.Some? ==> r.value.0 != "" && '|' !in r.value.0 && '}' !in r.value.0
    ensures r.Some? ==> b + 2 + |r.value.0| < r.value.1 <= |s|
    ensures r.Some? ==> OccursAt(s, "{{", b) && r.value.0 == s[b + 2..b + 2 + |r.value.0|]
  {
    if !OccursAt(s, "{{", b) then None
    else
      var g := b + 2;
      var e := NameEnd(s, g);
      if e == g || e == |s| then None
      else
        assert forall i :: 0 <= i < e - g ==> s[g..e][i] == s[g + i];
        match TemplateClose(s, e)
        case None => None
        case Some(c) => Some((s[g..e], if c < |s| && IsSpace(s[c]) then c + 1 else c))
  }

  /** The index after the `}}` closing a template whose name ends at `e`: either
      directly, or after `|` and one run of word characters (`(?:\|\w+)?\}\}`). */
  function TemplateClose(s: string, e: nat): (r: Option<nat>)
    requires e < |s|
    ensures r.Some? ==> e + 2 <= r.value <= |s| && OccursAt(s, "}}", r.value - 2)
  {
    if s[e] == '|' then
      var w := WordRunEnd(s, e + 1);
      if w > e + 1 && OccursAt(s, "}}", w) then Some(w + 2) else None
    else if OccursAt(s, "}}", e) then Some(e + 2)
    else None
  }

  /** `(?:\|\w+)?}}` matches from `e` with its `}}` at `w`: either `w == e`, or a
      `|` and one non-empty run of word characters lie in between. */
  predicate ClosesAt(s: string, e: nat, w: nat)
  {
    && OccursAt(s, "}}", w)
    && (w == e || (e + 1 < w && s[e] == '|' && forall i :: e + 1 <= i < w ==> IsWordChar(s[i])))
  }

  /** A template closed by `TemplateClose` is one the pattern's closing part matches. */
  lemma TemplateCloseSound(s: string, e: nat, c: nat)
    requires e < |s| && TemplateClose(s, e) == Some(c)
    ensures ClosesAt(s, e, c - 2)
  {
  }

  /** A grammar template found at `b` is one the pattern matches: the name is the
      whole `[^|}]+` run, the template closes right after it, and the optional
      `\s` is taken exactly when a whitespace character follows the `}}`. */
  lemma GrammarTemplateSound(s: string, b: nat, name: string, c: nat)
    requires b <= |s| && GrammarTemplate(s, b) == Some((name, c))
    ensures OccursAt(s, "{{", b) && name != "" && OccursAt(s, name, b + 2)
    ensures b + 2 + |name| < |s| && (s[b + 2 + |name|] == '|' || s[b + 2 + |name|] == '}')
    ensures || (ClosesAt(s, b + 2 + |name|, c - 2) && (c == |s| || !IsSpace(s[c])))
            || (ClosesAt(s, b + 2 + |name|, c - 3) && IsSpace(s[c - 1]))
  {
    var e := NameEnd(s, b + 2);
    TemplateCloseSound(s, e, TemplateClose(s, e).value);
  }

  /** `DEFINITION_PATTERN` applied to one list item: `None` where the pattern
      does not match, which is exactly an item not starting with `#`. */
  function SplitDefinitionLine(item: string): (r: Option<DefinitionLine>)
    ensures r.Some? <==> IsListItem(item)
    ensures r.Some? && r.value.grammar.Some? ==>
      var g := r.value.grammar.value; g != "" && '|' !in g && '}' !in g
    ensures r.Some? ==> '\n' !in r.value.rest
  {
    if !IsListItem(item) then None
    else
      var b := if 1 < |item| && IsSpace(item[1]) then 2 else 1;
      match GrammarTemplate(item, b)
      case None => Some(DefinitionLine(None, LineFrom(item, b)))
      case Some(t) => Some(DefinitionLine(Some(t.0), LineFrom(item, t.1)))
  }

  /** A name free of `|` and `}`, followed by one of them, is exactly what `[^|}]+` takes. */
  lemma NameEndAt(s: string, g: nat, name: string)
    requires OccursAt(s, name, g) && '|' !in name && '}' !in name
    requires g + |name| < |s| && (s[g + |name|] == '|' || s[g + |name|] == '}')
    ensures NameEnd(s, g) == g + |name|
  {
    forall i | g <= i < g + |name| ensures s[i] != '|' && s[i] != '}' {
      assert s[i] == name[i - g];
    }
  }

  /** A template `{{name|word}}` and a space at `b` are read as the grammar tag
      `name`, and what follows starts after the space. */
  lemma GrammarTemplateWithWord(s: string, b: nat, e: nat, name: string, word: string)
    requires name != "" && '|' !in name && '}' !in name
    requires word != "" && forall i :: 0 <= i < |word| ==> IsWordChar(word[i])
    requires OccursAt(s, "{{" + name + "|" + word + "}} ", b) && e == b + 6 + |name| + |word|
    ensures GrammarTemplate(s, b) == Some((name, e))
  {
    var c := b + 5 + |name| + |word|;
    assert GrammarTemplate(s, b) == Some((name, e)) by {
      var p := "{{" + name + "|" + word;
      var w := b + 3 + |name| + |word|;
      assert |p| == 3 + |name| + |word|;
      assert OccursAt(s, p, b) && OccursAt(s, "}}", w) && w + 2 < |s| && IsSpace(s[w + 2]) by {
        OccursAtSplit(s, p, "}} ", b);
        assert s[w..w + 3] == "}} ";
        assert s[w..w + 2] == "}} "[..2];
        assert s[w + 2] == "}} "[2];
      }
      assert OccursAt(s, "{{", b) && OccursAt(s, name, b + 2) && OccursAt(s, "|", b + 2 + |name|)
          && OccursAt(s, word, b + 3 + |name|) by {
        OccursAtSplit(s, "{{" + name + "|", word, b);
        OccursAtSplit(s, "{{" + name, "|", b);
        OccursAtSplit(s, "{{", name, b);
      }
      GrammarTemplateParts(s, b, c, name, word);
    }
  }

  /** A template `{{name}}` without an argument, and a space, at `b` are read as
      the grammar tag `name`, and what follows starts after the space. */
  lemma GrammarTemplateBare(s: string, b: nat, name: string)
    requires name != "" && '|' !in name && '}' !in name
    requires OccursAt(s, "{{" + name + "}} ", b)
    ensures GrammarTemplate(s, b) == Some((name, b + 5 + |name|))
  {
    var e := b + 2 + |name|;
    OccursAtSplit(s, "{{" + name, "}} ", b);
    OccursAtSplit(s, "{{", name, b);
    assert s[e..e + 3] == "}} ";
    assert s[e] == '}' && s[e + 1] == '}' && IsSpace(s[e + 2]);
    assert OccursAt(s, "}}", e) by { assert s[e..e + 2] == "}} "[..2]; }
    NameEndAt(s, b + 2, name);
    assert s[b + 2..e] == name;
    assert TemplateClose(s, e) == Some(e + 2);
  }

  /** `GrammarTemplateWithWord`, piece by piece. */
  lemma GrammarTemplateParts(s: string, b: nat, c: nat, name: string, word: string)
    requires name != "" && '|' !in name && '}' !in name
    requires word != "" && forall i :: 0 <= i < |word| ==> IsWordChar(word[i])
    requires OccursAt(s, "{{", b) && OccursAt(s, name, b + 2) && OccursAt(s, "|", b + 2 + |name|)
    requires OccursAt(s, word, b + 3 + |name|) && OccursAt(s, "}}", b + 3 + |name| + |word|)
    requires c == b + 5 + |name| + |word| && c < |s| && IsSpace(s[c])
    ensures GrammarTemplate(s, b) == Some((name, c + 1))
  {
    var g := b + 2;
    var e := g + |name|;
    var w := e + 1 + |word|;
    assert s[e] == "|"[0] && s[w] == "}}"[0];
    NameEndAt(s, g, name);
    WordRunEndAt(s, e + 1, word);
    assert TemplateClose(s, e) == Some(c);
    assert NameEnd(s, g) == e && g < e < |s|;
    assert s[g..e] == name;
    assert (if c < |s| && IsSpace(s[c]) then c + 1 else c) == c + 1;
  }

  /** A template `{{name|a|...` at `b` does not fit: the argument is followed by `|`. */
  lemma GrammarTemplateWithTwoWords(s: string, b: nat, name: string, a: string)
    requires name != "" && '|' !in name && '}' !in name
    requires a != "" && forall i :: 0 <= i < |a| ==> IsWordChar(a[i])
    requires OccursAt(s, "{{" + name + "|" + a + "|", b)
    ensures GrammarTemplate(s, b) == None
  {
    OccursAtSplit(s, "{{" + name + "|" + a, "|", b);
    OccursAtSplit(s, "{{" + name + "|", a, b);
    OccursAtSplit(s, "{{" + name, "|", b);
    OccursAtSplit(s, "{{", name, b);
    GrammarTemplateTwoParts(s, b, name, a);
  }

  /** `GrammarTemplateWithTwoWords`, piece by piece. */
  lemma GrammarTemplateTwoParts(s: string, b: nat, name: string, a: string)
    requires name != "" && '|' !in name && '}' !in name
    requires a != "" && forall i :: 0 <= i < |a| ==> IsWordChar(a[i])
    requires OccursAt(s, "{{", b) && OccursAt(s, name, b + 2) && OccursAt(s, "|", b + 2 + |name|)
    requires OccursAt(s, a, b + 3 + |name|) && OccursAt(s, "|", b + 3 + |name| + |a|)
    ensures GrammarTemplate(s, b) == None
  {
    var g := b + 2;
    var e := g + |name|;
    var w := e + 1 + |a|;
    assert s[e] == "|"[0] && s[w] == "|"[0];
    NameEndAt(s, g, name);
    WordRunEndAt(s, e + 1, a);
    assert !OccursAt(s, "}}", w);
    assert TemplateClose(s, e) == None;
    assert NameEnd(s, g) == e && g < e < |s|;
  }

  /** What may follow the first line of a list item: nothing, or a newline and
      the lines after it. */
  predicate EndsLine(more: string)
  {
    more == [] || more[0] == '\n'
  }

  /** A list item `# ` whose template ends at `c`, and `body` up to the line end. */
  lemma SplitAfterTemplate(s: string, name: string, c: nat, body: string, more: string)
    requires |s| > 1 && s[0] == '#' && IsSpace(s[1])
    requires GrammarTemplate(s, 2) == Some((name, c)) && s[c..] == body + more
    requires '\n' !in body && EndsLine(more)
    ensures SplitDefinitionLine(s) == Some(DefinitionLine(Some(name), body))
  {
    LineFromBefore(s, c, body, more);
  }

  /** A list item `# ` without a template, and `rest` up to the line end. */
  lemma SplitWithoutTemplateAt(s: string, rest: string, more: string)
    requires |s| > 1 && s[0] == '#' && IsSpace(s[1])
    requires GrammarTemplate(s, 2) == None && s[2..] == rest + more
    requires '\n' !in rest && EndsLine(more)
    ensures SplitDefinitionLine(s) == Some(DefinitionLine(None, rest))
  {
    LineFromBefore(s, 2, rest, more);
  }

  /** A template with one `|word` argument: the name is the grammar tag, the
      argument is dropped, and the text after the following space, up to the
      line end, is the rest. */
  lemma SplitTemplateWithArgument(name: string, word: string, body: string, more: string)
    requires name != "" && '|' !in name && '}' !in name
    requires word != "" && forall i :: 0 <= i < |word| ==> IsWordChar(word[i])
    requires '\n' !in body && EndsLine(more)
    ensures SplitDefinitionLine("# " + ("{{" + name + "|" + word + "}} " + body) + more)
            == Some(DefinitionLine(Some(name), body))
  {
    var t := "{{" + name + "|" + word + "}} ";
    var s := "# " + (t + body) + more;
    ItemParts(s, t, body, more);
    var c := 8 + |name| + |word|;
    GrammarTemplateWithWord(s, 2, c, name, word);
    SplitAfterTemplate(s, name, c, body, more);
  }

  /** The pieces of an item `# ` + `t` + `body` + `more`. */
  lemma ItemParts(s: string, t: string, body: string, more: string)
    requires s == "# " + (t + body) + more
    ensures |s| > 1 && s[0] == '#' && IsSpace(s[1])
    ensures OccursAt(s, t, 2) && s[2 + |t|..] == body + more
  {
    assert s[2..2 + |t|] == t;
    assert s[2 + |t|..] == body + more;
  }

  /** A template without an argument: the name is the grammar tag, and the text
      after the following space, up to the line end, is the rest. */
  lemma SplitTemplateWithoutArgument(name: string, body: string, more: string)
    requires name != "" && '|' !in name && '}' !in name
    requires '\n' !in body && EndsLine(more)
    ensures SplitDefinitionLine("# " + ("{{" + name + "}} " + body) + more)
            == Some(DefinitionLine(Some(name), body))
  {
    var t := "{{" + name + "}} ";
    var s := "# " + (t + body) + more;
    ItemParts(s, t, body, more);
    GrammarTemplateBare(s, 2, name);
    SplitAfterTemplate(s, name, 7 + |name|, body, more);
  }

  /** A template with two arguments does not fit the pattern: no grammar tag,
      and the whole template stays in the rest. */
  lemma SplitTemplateWithTwoArguments(name: string, a: string, b: string, body: string, more: string)
    requires name != "" && '|' !in name && '}' !in name
    requires a != "" && forall i :: 0 <= i < |a| ==> IsWordChar(a[i])
    requires '\n' !in name + a + b + body && EndsLine(more)
    ensures var rest := "{{" + name + "|" + a + "|" + b + "}} " + body;
      SplitDefinitionLine("# " + rest + more) == Some(DefinitionLine(None, rest))
  {
    var p := "{{" + name + "|" + a + "|";
    var rest := "{{" + name + "|" + a + "|" + b + "}} " + body;
    var s := "# " + rest + more;
    assert '\n' !in name && '\n' !in a && '\n' !in b && '\n' !in body;
    assert '\n' !in rest;
    assert s[2..] == rest + more;
    assert OccursAt(rest, rest, 0);
    OccursAtSplit(rest, p + b + "}} ", body, 0);
    OccursAtSplit(rest, p + b, "}} ", 0);
    OccursAtSplit(rest, p, b, 0);
    assert OccursAt(s, p, 2) by { assert s[2..2 + |p|] == rest[..|p|]; }
    GrammarTemplateWithTwoWords(s, 2, name, a);
    assert s[0] == "# "[0] && s[1] == "# "[1];
    SplitWithoutTemplateAt(s, rest, more);
  }

  /** Without a template the grammar is absent and the item after `# `, up to
      the line end, is the rest. */
  lemma SplitWithoutTemplate(body: string, more: string)
    requires !OccursAt(body, "{{", 0) && '\n' !in body && EndsLine(more)
    ensures SplitDefinitionLine("# " + body + more) == Some(DefinitionLine(None, body))
  {
    var s := "# " + body + more;
    assert IsSpace(s[1]);
    assert s[2..] == body + more;
    assert !OccursAt(s, "{{", 2) by {
      if |s| >= 4 {
        if |body| >= 2 {
          assert s[2..4] == body[0..2];
        } else {
          assert s[2..4][|body|] == s[2..][|body|] == '\n';
        }
      }
    }
    LineFromBefore(s, 2, body, more);
  }

  // ------------------------------------------------------------ parse_text

  /** `s` holds `â€™` (the UTF-8 bytes of U+2019 read as Windows-1252) at `i`. */
  predicate MojibakeAt(s: string, i: int)
  {
    0 <= i && i + 3 <= |s| && s[i] == '\U{E2}' && s[i + 1] == '\U{20AC}' && s[i + 2] == '\U{2122}'
  }

  /** `str.replace("â€™", "'")`: occurrences replaced from the left. */
  function ReplaceMojibake(s: string): string
    decreases |s|
  {
    if s == [] then []
    else if MojibakeAt(s, 0) then "'" + ReplaceMojibake(s[3..])
    else [s[0]] + ReplaceMojibake(s[1..])
  }

  lemma ReplaceMojibakeHead(s: string)
    requires s != []
    ensures ReplaceMojibake(s) != []
    ensures ReplaceMojibake(s)[0] == if MojibakeAt(s, 0) then '\'' else s[0]
  {
  }

  /** After the replacement no `â€™` is left, even across a replaced one. */
  lemma {:induction false} ReplaceMojibakeLeavesNone(s: string)
    ensures forall i :: !MojibakeAt(ReplaceMojibake(s), i)
    decreases |s|
  {
    if s != [] {
      var r := ReplaceMojibake(s);
      if MojibakeAt(s, 0) {
        var t := ReplaceMojibake(s[3..]);
        ReplaceMojibakeLeavesNone(s[3..]);
        assert r == "'" + t;
        forall i ensures !MojibakeAt(r, i) {
          if i > 0 && i + 3 <= |r| {
            assert r[i..i + 3] == t[i - 1..i + 2];
            assert !MojibakeAt(t, i - 1);
          }
        }
      } else {
        var t := ReplaceMojibake(s[1..]);
        ReplaceMojibakeLeavesNone(s[1..]);
        assert r == [s[0]] + t;
        forall i ensures !MojibakeAt(r, i) {
          if i > 0 && i + 3 <= |r| {
            assert r[i..i + 3] == t[i - 1..i + 2];
            assert !MojibakeAt(t, i - 1);
          } else if i == 0 && 3 <= |r| && s[0] == '\U{E2}' {
            ReplaceMojibakeHead(s[1..]);
            if !MojibakeAt(s[1..], 0) && s[1] == '\U{20AC}' {
              var u := ReplaceMojibake(s[2..]);
              assert t == [s[1]] + u;
              ReplaceMojibakeHead(s[2..]);
              assert r[2] == u[0];
            }
          }
        }
      }
    }
  }

  /** A string holding no `â€™` is left as it is. */
  lemma {:induction false} ReplaceMojibakeKeepsClean(s: string)
    requires forall i :: !MojibakeAt(s, i)
    ensures ReplaceMojibake(s) == s
    decreases |s|
  {
    if s != [] {
      assert forall i :: MojibakeAt(s[1..], i) ==> MojibakeAt(s, i + 1);
      ReplaceMojibakeKeepsClean(s[1..]);
    }
  }

  /** Each `â€™` becomes one `'`, and the text on either side of it is
      replaced on its own. */
  lemma {:induction false} ReplaceMojibakeSplit(a: string, b: string)
    ensures ReplaceMojibake(a + "\U{E2}\U{20AC}\U{2122}" + b)
            == ReplaceMojibake(a) + "'" + ReplaceMojibake(b)
    decreases |a|
  {
    var m := "\U{E2}\U{20AC}\U{2122}";
    var s := a + m + b;
    if a == [] {
      assert MojibakeAt(s, 0) && s[3..] == b;
    } else {
      assert s[|a|] == '\U{E2}';
      if MojibakeAt(s, 0) {
        assert MojibakeAt(a, 0);
        assert s[3..] == a[3..] + m + b;
        ReplaceMojibakeSplit(a[3..], b);
      } else {
        assert s[1..] == a[1..] + m + b;
        ReplaceMojibakeSplit(a[1..], b);
      }
    }
  }

  /** `Parser.parse_text`: plain text of the markup, stripped, with `â€™` repaired to `'`. */
  function ParseText(s: string): (r: string)
    ensures r == ReplaceMojibake(Strip(Wikitext.PlainText(s)))
    ensures forall i :: !MojibakeAt(r, i)
  {
    var t := Strip(Wikitext.PlainText(s));
    ReplaceMojibakeLeavesNone(t);
    ReplaceMojibake(t)
  }

  // ------------------------------------------------------------ extract_definitions

  /** The grammar tag is printed when its lower-cased name is in `GRAMMAR_TYPES`. */
  predicate IsKnownTag(language: Language, grammar: Option<string>)
  {
    grammar.Some? && grammar.value != "" && Lower(grammar.value) in language.grammarTypes
  }

  /** The grammar note of a line: the tag in parentheses, with its own casing,
      exactly when it is a known one; nothing otherwise. */
  function TagNote(language: Language, grammar: Option<string>): (r: string)
    ensures r != "" <==> IsKnownTag(language, grammar)
    ensures r != "" ==> r == " (" + grammar.value + ")"
  {
    if IsKnownTag(language, grammar) then " (" + grammar.value + ")" else ""
  }

  /** Line `k` of the definitions: `k.`, then the grammar note, then ` ` and the text. */
  function NumberedLine(language: Language, k: nat, line: DefinitionLine): string
  {
    Decimal(k) + "." + TagNote(language, line.grammar) + " " + ParseText(line.rest)
  }

  /** `f` applied to every item together with its number, counting from 1, in order. */
  function NumberEach(f: (nat, string) --> string, items: seq<string>): (r: seq<string>)
    requires forall k :: 0 <= k < |items| ==> f.requires(k + 1, items[k])
    ensures |r| == |items|
    decreases |items|
  {
    if items == [] then []
    else
      var n := |items| - 1;
      NumberEach(f, items[..n]) + [f(n + 1, items[n])]
  }

  /** Entry k of `NumberEach` is `f` of item k with the number k + 1. */
  lemma {:induction false} NumberEachAt(f: (nat, string) --> string, items: seq<string>, k: nat)
    requires forall i :: 0 <= i < |items| ==> f.requires(i + 1, items[i])
    requires k < |items|
    ensures NumberEach(f, items)[k] == f(k + 1, items[k])
    decreases |items|
  {
    var n := |items| - 1;
    if k < n {
      NumberEachAt(f, items[..n], k);
    }
  }

  /** One more item adds its entry at the end. */
  lemma NumberEachSnoc(f: (nat, string) --> string, items: seq<string>, i: nat)
    requires forall k :: 0 <= k < |items| ==> f.requires(k + 1, items[k])
    requires i < |items|
    ensures NumberEach(f, items[..i + 1]) == NumberEach(f, items[..i]) + [f(i + 1, items[i])]
  {
    assert items[..i + 1][..i] == items[..i];
  }

  /** The numbered line of one list item. */
  function LineOf(language: Language): (nat, string) --> string
  {
    (k: nat, item: string) requires IsListItem(item) => NumberedLine(language, k, SplitDefinitionLine(item).value)
  }

  /** The numbered lines of a list, one per item, in order. */
  function DefinitionLines(language: Language, items: seq<string>): (r: seq<string>)
    requires AllListItems(items)
    ensures |r| == |items|
  {
    NumberEach(LineOf(language), items)
  }

  /** What `extract_definitions` returns for `defs` and the items of its list. */
  function Definitions(language: Language, defs: string, items: seq<string>): string
    requires AllListItems(items)
  {
    if defs == "" then "" else Join(DefinitionLines(language, items), "\n")
  }

  /** One pass of the loop of `extract_definitions`: the line for item `i`,
      built by appending to `d` step by step as the source does; its ensures
      ties it to `NumberedLine`, which the lemmas are about. */
  method FormatDefinition(p: Parser, items: seq<string>, i: nat) returns (d: string)
    requires AllListItems(items) && i < |items|
    ensures d == NumberedLine(p.language, i + 1, SplitDefinitionLine(items[i]).value)
  {
    var line := SplitDefinitionLine(items[i]).value;
    var text := ParseText(line.rest);
    ghost var number := Decimal(i + 1) + ".";
    ghost var note := TagNote(p.language, line.grammar);
    d := Decimal(i + 1) + ".";
    if IsKnownTag(p.language, line.grammar) {
      d := d + (" (" + line.grammar.value + ")");
      assert d == number + note;
    } else {
      assert d == number + note;
    }
    d := d + " " + text;
    assert d == NumberedLine(p.language, i + 1, line);
  }


  /** `extract_definitions`: number the list items from 1, keep a known grammar
      tag in parentheses, and join the lines with newlines. A non-empty `defs`
      is a run of `#` lines, so its first list has at least one item (the
      `get_lists()[0]` of the source fails otherwise). */
  method ExtractDefinitions(p: Parser, defs: string, items: seq<string>) returns (r: string)
    requires AllListItems(items)
    requires defs != "" ==> items != []
    ensures r == Definitions(p.language, defs, items)
    ensures r == "" <==> defs == ""
  {
    if defs == "" {
      return "";
    }
    var definitions := FormatDefinitions(p, items);
    r := Join(definitions, "\n");
    DefinitionsEmpty(p.language, defs, items);
  }

  /** The loop of `extract_definitions`: the numbered line of every item, in order. */
  method FormatDefinitions(p: Parser, items: seq<string>) returns (definitions: seq<string>)
    requires AllListItems(items)
    ensures definitions == DefinitionLines(p.language, items)
  {
    definitions := [];
    for i := 0 to |items|
      invariant definitions == DefinitionLines(p.language, items[..i])
    {
      var d := FormatDefinition(p, items, i);
      NumberEachSnoc(LineOf(p.language), items, i);
      definitions := definitions + [d];
    }
    assert items[..|items|] == items;
  }

  /** The definitions are empty exactly when the text is empty or its list has no item. */
  lemma DefinitionsEmpty(language: Language, defs: string, items: seq<string>)
    requires AllListItems(items)
    ensures Definitions(language, defs, items) == "" <==> defs == "" || items == []
  {
    if defs != "" && items != [] {
      var lines := DefinitionLines(language, items);
      DefinitionLineStartsWithNumber(language, items, 0);
      assert |Join(lines, "\n")| >= |lines[0]| > 0;
    }
  }

  /** `GrammarNoteLine` once the item is split: line 1 with a known tag. */
  lemma FirstLineWithKnownTag(language: Language, name: string, body: string)
    requires IsKnownTag(language, Some(name))
    ensures NumberedLine(language, 1, DefinitionLine(Some(name), body))
            == "1" + "." + " (" + name + ")" + " " + ParseText(body)
  {
    assert Decimal(1) == "1";
  }

  /** An item `# {{tag|lang}} text`, ending there or followed by a newline,
      whose lower-cased tag is a grammar type becomes `1. (tag) ` followed by the text. */
  lemma GrammarNoteLine(language: Language, name: string, word: string, body: string, more: string)
    requires name != "" && '|' !in name && '}' !in name && Lower(name) in language.grammarTypes
    requires word != "" && forall i :: 0 <= i < |word| ==> IsWordChar(word[i])
    requires '\n' !in body && EndsLine(more)
    ensures NumberedLine(language, 1, SplitDefinitionLine("# " + ("{{" + name + "|" + word + "}} " + body) + more).value)
            == "1" + "." + " (" + name + ")" + " " + ParseText(body)
  {
    SplitTemplateWithArgument(name, word, body, more);
    FirstLineWithKnownTag(language, name, body);
  }


  /** No grammar tag of the table spans two lines. */
  predicate TagsAreOneLine(language: Language)
  {
    forall t :: t in language.grammarTypes ==> '\n' !in t
  }

  /** A numbered line is one line: the text is cut at the first newline, and a
      tag with a newline in it is never a known one. */
  lemma NumberedLineIsOneLine(language: Language, k: nat, line: DefinitionLine)
    requires TagsAreOneLine(language) && '\n' !in line.rest
    ensures '\n' !in NumberedLine(language, k, line)
  {
    ParseTextIsOneLine(line.rest);
    TagNoteIsOneLine(language, line.grammar);
    assert '\n' !in Decimal(k);
  }

  /** The text of a line without a newline has none. */
  lemma ParseTextIsOneLine(s: string)
    requires '\n' !in s
    ensures '\n' !in ParseText(s)
  {
    var t := Strip(Wikitext.PlainText(s));
    Wikitext.PlainTextChars(s, '\n');
    StripChars(Wikitext.PlainText(s), '\n');
    ReplaceMojibakeChars(t, '\n');
  }

  /** A grammar note holds no newline when no tag of the table does. */
  lemma TagNoteIsOneLine(language: Language, grammar: Option<string>)
    requires TagsAreOneLine(language)
    ensures '\n' !in TagNote(language, grammar)
  {
    if IsKnownTag(language, grammar) {
      LowerKeeps(grammar.value, '\n');
    }
  }

  lemma {:induction false} ReplaceMojibakeChars(s: string, c: char)
    requires c != '\''
    ensures c in ReplaceMojibake(s) ==> c in s
    decreases |s|
  {
    if s != [] {
      if MojibakeAt(s, 0) {
        ReplaceMojibakeChars(s[3..], c);
      } else {
        ReplaceMojibakeChars(s[1..], c);
      }
    }
  }

  /** No numbered line holds a newline. */
  lemma DefinitionLinesAreOneLine(language: Language, items: seq<string>)
    requires AllListItems(items) && TagsAreOneLine(language)
    ensures forall k :: 0 <= k < |items| ==> '\n' !in DefinitionLines(language, items)[k]
  {
    forall k | 0 <= k < |items| ensures '\n' !in DefinitionLines(language, items)[k] {
      var line := SplitDefinitionLine(items[k]).value;
      assert '\n' !in line.rest;
      NumberedLineIsOneLine(language, k + 1, line);
      DefinitionLineAt(language, items, k);
    }
  }

  /** For N >= 1 items the definitions are exactly N lines, the numbered lines
      in item order: splitting at the newlines gives them back. */
  lemma DefinitionsAreNumberedLines(language: Language, defs: string, items: seq<string>)
    requires AllListItems(items) && TagsAreOneLine(language)
    requires defs != "" && items != []
    ensures Split(Definitions(language, defs, items), '\n') == DefinitionLines(language, items)
  {
    DefinitionLinesAreOneLine(language, items);
    SplitJoin(DefinitionLines(language, items), '\n');
  }

  /** Line k of the definitions is the numbered line of item k. */
  lemma DefinitionLineAt(language: Language, items: seq<string>, k: nat)
    requires AllListItems(items) && k < |items|
    ensures DefinitionLines(language, items)[k]
            == NumberedLine(language, k + 1, SplitDefinitionLine(items[k]).value)
  {
    NumberEachAt(LineOf(language), items, k);
  }

  /** Line k starts with the number k followed by `.`. */
  lemma DefinitionLineStartsWithNumber(language: Language, items: seq<string>, k: nat)
    requires AllListItems(items) && k < |items|
    ensures StartsWith(DefinitionLines(language, items)[k], Decimal(k + 1) + ".")
  {
    var line := SplitDefinitionLine(items[k]).value;
    DefinitionLineAt(language, items, k);
    NumberThenDot(Decimal(k + 1), TagNote(language, line.grammar), ParseText(line.rest));
  }

  /** Reading line k up to its first `.` gives back the number k. */
  lemma DefinitionLineNumber(language: Language, items: seq<string>, k: nat, line: string)
    requires AllListItems(items) && k < |items| && line == DefinitionLines(language, items)[k]
    ensures FindChar(line, '.', 0) == Some(|Decimal(k + 1)|)
    ensures |Decimal(k + 1)| < |line| && line[..|Decimal(k + 1)|] == Decimal(k + 1)
    ensures DecimalValue(line[..|Decimal(k + 1)|]) == k + 1
  {
    var split := SplitDefinitionLine(items[k]).value;
    DefinitionLineAt(language, items, k);
    NumberThenDot(Decimal(k + 1), TagNote(language, split.grammar), ParseText(split.rest));
    DecimalRoundTrip(k + 1);
  }

  // ------------------------------------------------------------ parse_match and parse

  /** What a match of `TERM_PATTERN` guarantees: `defs` is a run of `#` lines,
      so its items all start with `#` and there is one whenever `defs` is not empty. */
  predicate WellFormed(m: TermMatch)
  {
    AllListItems(m.defItems) && (m.defs != "" ==> m.defItems != [])
  }

  /** `parse_match`: `None` for a word template without the `fr` argument or a
      title line without a title; otherwise the record, even when the list of
      definitions is empty. */
  function ParseMatch(p: Parser, m: TermMatch): (r: Option<Term>)
    requires WellFormed(m)
    ensures r.None? <==> !IsValidMot(m.wordTemplate) || !TitleLineMatches(m.titleGroup)
  {
    if !IsValidMot(m.wordTemplate) then None
    else
      var t := ParseTitleGroup(m.titleGroup);
      if t.title == "" then None
      else Some(Term(t.title, "", t.ipa, m.wordType, Definitions(p.language, m.defs, m.defItems), "", ""))
  }

  /** The record of an accepted match: the title and pronunciation of its title
      line, its word type as `pos`, its definitions (empty exactly when `defs`
      is), and empty `altterm`, `examples` and `audio`. */
  lemma ParseMatchRecord(p: Parser, m: TermMatch)
    requires WellFormed(m) && ParseMatch(p, m).Some?
    ensures var r := ParseMatch(p, m).value;
      && r.term != "" && r.term == ParseTitleGroup(m.titleGroup).title
      && r.pronunciation == ParseTitleGroup(m.titleGroup).ipa
      && r.pos == m.wordType
      && r.definition == Definitions(p.language, m.defs, m.defItems)
      && (r.definition == "" <==> m.defs == "")
      && r.altterm == "" && r.examples == "" && r.audio == ""
  {
    DefinitionsEmpty(p.language, m.defs, m.defItems);
  }

  predicate AllWellFormed(ms: seq<TermMatch>)
  {
    forall i :: 0 <= i < |ms| ==> WellFormed(ms[i])
  }

  /** `self.parse_match` of parser `p`, as a value that can be passed around. */
  function ParseMatchOf(p: Parser): TermMatch --> Option<Term>
  {
    m requires WellFormed(m) => ParseMatch(p, m)
  }

  /** `f` applied to each match, in order. */
  function Applied(f: TermMatch --> Option<Term>, ms: seq<TermMatch>): (r: seq<Option<Term>>)
    requires forall i :: 0 <= i < |ms| ==> f.requires(ms[i])
    ensures |r| == |ms|
    decreases |ms|
  {
    if ms == [] then [] else Applied(f, ms[..|ms| - 1]) + [f(ms[|ms| - 1])]
  }

  /** Result `i` is `f` of match `i`. */
  lemma {:induction false} AppliedAt(f: TermMatch --> Option<Term>, ms: seq<TermMatch>, i: nat)
    requires forall i :: 0 <= i < |ms| ==> f.requires(ms[i])
    requires i < |ms|
    ensures Applied(f, ms)[i] == f(ms[i])
    decreases |ms|
  {
    var n := |ms| - 1;
    if i < n {
      AppliedAt(f, ms[..n], i);
      assert ms[..n][i] == ms[i];
    }
  }

  /** What `parse_match` gives for each match, in order. */
  function Results(p: Parser, ms: seq<TermMatch>): (r: seq<Option<Term>>)
    requires AllWellFormed(ms)
    ensures |r| == |ms|
  {
    Applied(ParseMatchOf(p), ms)
  }

  /** The terms `enumerate` and the skip of `parse` yield from the results
      `rs`: each accepted result, carrying its index as `id`. */
  function Enumerated(rs: seq<Option<Term>>): seq<NumberedTerm>
    decreases |rs|
  {
    if rs == [] then []
    else
      var n := |rs| - 1;
      Enumerated(rs[..n]) + match rs[n] {
        case None => []
        case Some(t) => [NumberedTerm(n, t)]
      }
  }

  /** One more result adds at most one term, numbered with its index. */
  lemma EnumeratedSnoc(rs: seq<Option<Term>>, r: Option<Term>)
    ensures Enumerated(rs + [r]) == Enumerated(rs) + match r {
      case None => []
      case Some(t) => [NumberedTerm(|rs|, t)]
    }
  {
    assert (rs + [r])[..|rs|] == rs;
  }

  /** Every id names a result, and the ids strictly increase. */
  lemma {:induction false} EnumeratedIdsIncrease(rs: seq<Option<Term>>, ts: seq<NumberedTerm>)
    requires ts == Enumerated(rs)
    ensures forall k :: 0 <= k < |ts| ==> ts[k].id < |rs|
    ensures forall a, b :: 0 <= a < b < |ts| ==> ts[a].id < ts[b].id
    decreases |rs|
  {
    if rs != [] {
      var n := |rs| - 1;
      EnumeratedIdsIncrease(rs[..n], Enumerated(rs[..n]));
    }
  }

  /** Each term is the accepted result its id names. */
  lemma {:induction false} EnumeratedEntries(rs: seq<Option<Term>>, ts: seq<NumberedTerm>)
    requires ts == Enumerated(rs)
    ensures forall k :: 0 <= k < |ts| ==> ts[k].id < |rs| && rs[ts[k].id] == Some(ts[k].entry)
    decreases |rs|
  {
    if rs != [] {
      var n := |rs| - 1;
      EnumeratedEntries(rs[..n], Enumerated(rs[..n]));
    }
  }

  /** Every accepted result is emitted. */
  lemma {:induction false} EnumeratedComplete(rs: seq<Option<Term>>, ts: seq<NumberedTerm>)
    requires ts == Enumerated(rs)
    ensures forall i :: 0 <= i < |rs| && rs[i].Some? ==> exists k :: 0 <= k < |ts| && ts[k].id == i
    decreases |rs|
  {
    if rs != [] {
      var n := |rs| - 1;
      var prev := Enumerated(rs[..n]);
      EnumeratedComplete(rs[..n], prev);
      forall i | 0 <= i < |rs| && rs[i].Some?
        ensures exists k :: 0 <= k < |ts| && ts[k].id == i
      {
        if i < n {
          assert rs[..n][i] == rs[i];
          var k :| 0 <= k < |prev| && prev[k].id == i;
          assert ts[k] == prev[k];
        } else {
          assert ts[|ts| - 1].id == n;
        }
      }
    }
  }

  /** Result `i` is what `parse_match` gives for match `i`. */
  lemma ResultsAt(p: Parser, ms: seq<TermMatch>, i: nat)
    requires AllWellFormed(ms) && i < |ms|
    ensures Results(p, ms)[i] == ParseMatch(p, ms[i])
  {
    AppliedAt(ParseMatchOf(p), ms, i);
  }

  /** Each term `parse` yields is the record `parse_match` builds for the match
      its id names. */
  lemma ParsedTermsMatch(p: Parser, ms: seq<TermMatch>, ts: seq<NumberedTerm>)
    requires AllWellFormed(ms) && ts == Enumerated(Results(p, ms))
    ensures forall k :: 0 <= k < |ts| ==> ts[k].id < |ms| && ParseMatch(p, ms[ts[k].id]) == Some(ts[k].entry)
  {
    var rs := Results(p, ms);
    EnumeratedEntries(rs, ts);
    forall k | 0 <= k < |ts|
      ensures ts[k].id < |ms| && ParseMatch(p, ms[ts[k].id]) == Some(ts[k].entry)
    {
      var i := ts[k].id;
      assert i < |rs| && rs[i] == Some(ts[k].entry);
      ResultsAt(p, ms, i);
    }
  }

  /** Every match that `parse_match` accepts is yielded by `parse`. */
  lemma ParsedTermComplete(p: Parser, ms: seq<TermMatch>, ts: seq<NumberedTerm>, i: nat)
    requires AllWellFormed(ms) && ts == Enumerated(Results(p, ms))
    requires i < |ms| && ParseMatch(p, ms[i]).Some?
    ensures exists k :: 0 <= k < |ts| && ts[k].id == i
  {
    ResultsAt(p, ms, i);
    EnumeratedComplete(Results(p, ms), ts);
  }

  /** The loop of `parse` around any `parse_match` `f`: the matches in order,
      skipping those `f` rejects, each emitted term carrying its match index as
      `id` (see `EnumeratedIdsIncrease`, `EnumeratedEntries` and
      `EnumeratedComplete` for what that numbering keeps). */
  method EnumerateAccepted(ms: seq<TermMatch>, f: TermMatch --> Option<Term>)
    returns (terms: seq<NumberedTerm>)
    requires forall i :: 0 <= i < |ms| ==> f.requires(ms[i])
    ensures terms == Enumerated(Applied(f, ms))
  {
    terms := [];
    for i := 0 to |ms|
      invariant terms == Enumerated(Applied(f, ms[..i]))
    {
      var term := f(ms[i]);
      assert ms[..i + 1][..i] == ms[..i];
      EnumeratedSnoc(Applied(f, ms[..i]), term);
      if term.None? {
        continue;
      }
      terms := terms + [NumberedTerm(i, term.value)];
    }
    assert ms[..|ms|] == ms;
  }

  /** `parse`: the loop above with this parser's `parse_match`. */
  method Parse(p: Parser, ms: seq<TermMatch>) returns (terms: seq<NumberedTerm>)
    requires AllWellFormed(ms)
    ensures terms == Enumerated(Results(p, ms))
  {
    terms := EnumerateAccepted(ms, ParseMatchOf(p));
  }
}
