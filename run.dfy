/**
 * The writer loop of `main` in `run.py`: it writes `wiktionary.json` as one
 * JSON array, the serialised terms separated by commas, using a `first_item`
 * flag to leave the separator out before the first term.
 *
 * The file is a growing character buffer; `json.dumps` is the parameter
 * `serialize`, since its output is not part of this model.
 */
module Run {
  import opened Strings
  import WikiParser

  /** What the writer produces for the serialised terms `items`. */
  function JsonArray(items: seq<string>): string
  {
    "[" + Join(items, ",") + "]"
  }

  /** The serialised terms, in order. */
  function Serialized(serialize: WikiParser.NumberedTerm -> string, terms: seq<WikiParser.NumberedTerm>): (r: seq<string>)
    ensures |r| == |terms|
  {
    seq(|terms|, i requires 0 <= i < |terms| => serialize(terms[i]))
  }

  /** The text always opens with `[` and closes with `]`. */
  lemma JsonArrayBrackets(items: seq<string>)
    ensures var r := JsonArray(items); |r| >= 2 && r[0] == '[' && r[|r| - 1] == ']'
  {
    var r := JsonArray(items);
    assert r == "[" + Join(items, ",") + "]";
    assert r[|r| - 1] == ']';
  }

  /** Without terms the text is `[]`. */
  lemma JsonArrayEmpty()
    ensures JsonArray([]) == "[]"
  {
    assert Join([], ",") == "";
  }

  /** No separator precedes the first term and none follows the last: the text
      opens with `[` and the first term, and closes with the last term and `]`. */
  lemma JsonArrayEnds(items: seq<string>)
    requires items != []
    ensures var r := JsonArray(items);
      && StartsWith(r, "[" + items[0])
      && |items[|items| - 1]| + 1 <= |r|
      && r[|r| - 1 - |items[|items| - 1]|..] == items[|items| - 1] + "]"
  {
    var n := |items| - 1;
    var r := JsonArray(items);
    JoinAppend(items[..n], ",", items[n]);
    assert items[..n] + [items[n]] == items;
    var j := Join(items, ",");
    assert j == if n == 0 then items[n] else Join(items[..n], ",") + "," + items[n];
    assert r[|r| - 1 - |items[n]|..] == items[n] + "]";
    if n == 0 {
      assert r[..1 + |items[0]|] == "[" + items[0];
    } else {
      assert j == items[0] + "," + Join(items[1..], ",");
      assert r[..1 + |items[0]|] == "[" + items[0];
    }
  }

  /** Where the `k`-th serialised term starts in the text: after the `[` and
      every earlier term with the comma that follows it. */
  function ItemStart(items: seq<string>, k: nat): nat
    requires k <= |items|
    decreases k
  {
    if k == 0 then 1 else ItemStart(items, k - 1) + |items[k - 1]| + 1
  }

  /** After the first term, a term starts just past `[`, the join of the
      earlier terms and one comma. */
  lemma {:induction false} ItemStartAfterJoin(items: seq<string>, k: nat)
    requires 0 < k <= |items|
    ensures ItemStart(items, k) == |Join(items[..k], ",")| + 2
    decreases k
  {
    if k == 1 {
      assert items[..1] == [items[0]];
    } else {
      ItemStartAfterJoin(items, k - 1);
      JoinAppend(items[..k - 1], ",", items[k - 1]);
      assert items[..k - 1] + [items[k - 1]] == items[..k];
    }
  }

  /** From where the `k`-th term starts, the text is the join of the
      remaining terms and the closing `]`. */
  lemma JsonArrayFrom(items: seq<string>, k: nat)
    requires k < |items|
    ensures ItemStart(items, k) <= |JsonArray(items)|
    ensures JsonArray(items)[ItemStart(items, k)..] == Join(items[k..], ",") + "]"
  {
    if k == 0 {
      assert items[k..] == items;
    } else {
      JoinSplitAt(items, ",", k);
      ItemStartAfterJoin(items, k);
      JsonArrayAfter("[" + Join(items[..k], ",") + ",", Join(items[k..], ",") + "]", items);
    }
  }

  /** Dropping the part before a split point leaves the part after it. */
  lemma JsonArrayAfter(head: string, tail: string, items: seq<string>)
    requires JsonArray(items) == head + tail
    ensures JsonArray(items)[|head|..] == tail
  {
  }

  /** Reading the text back: the `k`-th term sits at `ItemStart(items, k)`,
      and right after it comes a comma, or `]` after the last term. This holds
      whatever the terms contain, commas included. */
  lemma JsonArrayItemAt(items: seq<string>, k: nat)
    requires k < |items|
    ensures ItemStart(items, k) + |items[k]| < |JsonArray(items)|
    ensures JsonArray(items)[ItemStart(items, k)..ItemStart(items, k) + |items[k]|] == items[k]
    ensures JsonArray(items)[ItemStart(items, k) + |items[k]|] == if k + 1 < |items| then ',' else ']'
  {
    var r := JsonArray(items);
    var s := ItemStart(items, k);
    JsonArrayFrom(items, k);
    var rest := r[s..];
    if k + 1 < |items| {
      assert items[k..][1..] == items[k + 1..];
      assert rest == items[k] + "," + Join(items[k + 1..], ",") + "]";
    } else {
      assert items[k..] == [items[k]];
      assert rest == items[k] + "]";
    }
    assert r[s..s + |items[k]|] == rest[..|items[k]|];
    assert r[s + |items[k]|] == rest[|items[k]|];
  }

  /** Terms of the same lengths start at the same places. */
  lemma {:induction false} ItemStartSameLengths(xs: seq<string>, ys: seq<string>, k: nat)
    requires |xs| == |ys| && k <= |xs|
    requires forall i :: 0 <= i < |xs| ==> |xs[i]| == |ys[i]|
    ensures ItemStart(xs, k) == ItemStart(ys, k)
    decreases k
  {
    if k > 0 {
      ItemStartSameLengths(xs, ys, k - 1);
    }
  }

  /** The text determines the terms: a reader that knows how long each
      serialised term is gets every one of them back. */
  lemma JsonArrayReadBack(xs: seq<string>, ys: seq<string>)
    requires |xs| == |ys| && forall i :: 0 <= i < |xs| ==> |xs[i]| == |ys[i]|
    requires JsonArray(xs) == JsonArray(ys)
    ensures xs == ys
  {
    forall k | 0 <= k < |xs| ensures xs[k] == ys[k] {
      ItemStartSameLengths(xs, ys, k);
      JsonArrayItemAt(xs, k);
      JsonArrayItemAt(ys, k);
    }
  }

  /** `main`: build the parser, optionally count the terms for the progress bar,
      and write every term `parse` yields, in order, as one JSON array. Nothing
      is written for a language code other than `fr`, for which the parser
      cannot be built. The text does not depend on the progress bar. */
  method ConvertDump(code: string, french: WikiParser.Language, ms: seq<WikiParser.TermMatch>,
                     serialize: WikiParser.NumberedTerm -> string, progressBar: bool)
    returns (written: Option<string>)
    requires WikiParser.AllWellFormed(ms)
    ensures written.Some? <==> code == "fr"
    ensures written.Some? ==>
      var p := WikiParser.Parser("fr", french);
      written.value == JsonArray(Serialized(serialize, WikiParser.Enumerated(WikiParser.Results(p, ms))))
  {
    var p := WikiParser.NewParser(code, french);
    if p.None? {
      return None;
    }
    var totalTerms: Option<nat> := None;
    if progressBar {
      totalTerms := Some(|ms|);
    }
    var terms := WikiParser.Parse(p.value, ms);
    var o := WriteJsonArray(serialize, terms);
    written := Some(o);
  }

  /** The writer loop of `main`: `[`, then each serialised term, preceded by a
      comma unless the `first_item` flag says it is the first, then `]`. */
  method WriteJsonArray(serialize: WikiParser.NumberedTerm -> string, terms: seq<WikiParser.NumberedTerm>)
    returns (o: string)
    ensures o == JsonArray(Serialized(serialize, terms))
  {
    var firstItem := true;
    o := "[";
    for i := 0 to |terms|
      invariant firstItem <==> i == 0
      invariant o == "[" + Join(Serialized(serialize, terms[..i]), ",")
    {
      ghost var before := Serialized(serialize, terms[..i]);
      assert Serialized(serialize, terms[..i + 1]) == before + [serialize(terms[i])];
      JoinAppend(before, ",", serialize(terms[i]));
      if firstItem {
        o := o + serialize(terms[i]);
        firstItem := false;
      } else {
        o := o + ("," + serialize(terms[i]));
      }
    }
    o := o + "]";
    assert terms[..|terms|] == terms;
  }
}
