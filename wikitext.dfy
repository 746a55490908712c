/**
 * A stand-in for wikitextparser's `plain_text()`, restricted to wikilinks:
 * `[[target|label]]` renders as `label` and `[[target]]` as `target`; every
 * other character is kept as it is. Templates, bold and italic quotes and the
 * other constructs the library also renders are not part of this model.
 */
module Wikitext {
  import opened Strings

  /** The text a link shows: what follows its first `|`, else its whole target. */
  function LinkText(inner: string): (r: string)
    ensures '|' !in inner ==> r == inner
    ensures '|' in inner ==> |r| < |inner| && r == inner[|inner| - |r|..] && inner[|inner| - |r| - 1] == '|'
  {
    match FindChar(inner, '|', 0)
    case None => inner
    case Some(i) => inner[i + 1..]
  }

  /** `s` starts with `[[`. */
  predicate OpensLink(s: string)
  {
    |s| >= 2 && s[0] == '[' && s[1] == '['
  }

  /** The rendered text of `s`: every closed link replaced by the text it shows. */
  function PlainText(s: string): string
    decreases |s|
  {
    if s == [] then []
    else if OpensLink(s) then
      (match Find(s, "]]", 2)
       case None => s
       case Some(j) => LinkText(s[2..j]) + PlainText(s[j + 2..]))
    else [s[0]] + PlainText(s[1..])
  }

  /** Rendering only drops characters: every character of the result is one of `s`. */
  lemma {:induction false} PlainTextChars(s: string, c: char)
    ensures c in PlainText(s) ==> c in s
    decreases |s|
  {
    if s != [] {
      if OpensLink(s) {
        match Find(s, "]]", 2)
        case None =>
        case Some(j) =>
          var inner := s[2..j];
          assert c in LinkText(inner) ==> c in inner;
          PlainTextChars(s[j + 2..], c);
      } else {
        PlainTextChars(s[1..], c);
      }
    }
  }

  /** Text without any `[` passes through unchanged. */
  lemma {:induction false} PlainTextPrefix(a: string, b: string)
    requires '[' !in a
    ensures PlainText(a + b) == a + PlainText(b)
    decreases |a|
  {
    if a != [] {
      var s := a + b;
      assert s[0] == a[0] && !OpensLink(s);
      assert s[1..] == a[1..] + b;
      PlainTextPrefix(a[1..], b);
      assert a == [a[0]] + a[1..];
    } else {
      assert a + b == b;
    }
  }

  /** A link whose inner text holds no `]` renders as the text it shows. */
  lemma PlainTextLink(inner: string, b: string)
    requires ']' !in inner
    ensures PlainText("[[" + inner + "]]" + b) == LinkText(inner) + PlainText(b)
  {
    var s := "[[" + inner + "]]" + b;
    var n := |inner| + 2;
    assert OpensLink(s);
    assert OccursAt(s, "]]", n);
    var f := Find(s, "]]", 2);
    assert f.Some? && f.value <= n;
    assert s[f.value] == ']';
    assert f.value == n;
    assert s[2..n] == inner;
    assert s[n + 2..] == b;
  }

  /** `[[target|caption]]` renders as `caption`. */
  lemma PlainTextLabelledLink(target: string, caption: string, b: string)
    requires '|' !in target && ']' !in target && ']' !in caption
    ensures PlainText("[[" + target + "|" + caption + "]]" + b) == caption + PlainText(b)
  {
    var inner := target + "|" + caption;
    assert "[[" + target + "|" + caption + "]]" + b == "[[" + inner + "]]" + b;
    assert inner[|target|] == '|';
    assert FindChar(inner, '|', 0) == Some(|target|);
    assert inner[|target| + 1..] == caption;
    PlainTextLink(inner, b);
  }

  /** `[[target]]` renders as `target`. */
  lemma PlainTextBareLink(target: string, b: string)
    requires '|' !in target && ']' !in target
    ensures PlainText("[[" + target + "]]" + b) == target + PlainText(b)
  {
    PlainTextLink(target, b);
  }

  /** A labelled link, plain text, then a bare link: `[[lieu|Lieu]] où sont
      accueillies les [[personne]]s.` reads `Lieu où sont accueillies les personnes.`. */
  lemma PlainTextTwoLinks(t: string, c: string, a: string, u: string, b: string)
    requires '|' !in t && ']' !in t && ']' !in c && '[' !in a && '|' !in u && ']' !in u
    ensures PlainText("[[" + t + "|" + c + "]]" + (a + ("[[" + u + "]]" + b)))
            == c + (a + (u + PlainText(b)))
  {
    var link := "[[" + u + "]]" + b;
    PlainTextLabelledLink(t, c, a + link);
    PlainTextPrefix(a, link);
    PlainTextBareLink(u, b);
  }
}
