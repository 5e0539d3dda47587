/** What a reader of rendered HTML sees: the text left once every `<...>`
    tag is removed. Used to state that rendering adds markup and nothing else. */
module Markup {

  /** Scans `s` left to right; `inTag` says whether a `<` is still open. */
  function Strip(s: string, inTag: bool): string
  {
    if |s| == 0 then ""
    else if inTag then Strip(s[1..], s[0] != '>')
    else if s[0] == '<' then Strip(s[1..], true)
    else [s[0]] + Strip(s[1..], false)
  }

  /** Whether a `<` is still open after scanning `s` from state `inTag`. */
  function After(s: string, inTag: bool): bool
  {
    if |s| == 0 then inTag
    else if inTag then After(s[1..], s[0] != '>')
    else After(s[1..], s[0] == '<')
  }

  /** The visible text of a rendered document. */
  function StripTags(s: string): string
  {
    Strip(s, false)
  }

  /** Scanning a concatenation scans the parts one after the other. */
  lemma {:induction false} StripAppend(a: string, b: string, inTag: bool)
    ensures Strip(a + b, inTag) == Strip(a, inTag) + Strip(b, After(a, inTag))
    ensures After(a + b, inTag) == After(b, After(a, inTag))
    decreases |a|
  {
    if |a| > 0 {
      assert (a + b)[1..] == a[1..] + b;
      var next := if inTag then a[0] != '>' else a[0] == '<';
      StripAppend(a[1..], b, next);
    } else {
      assert a + b == b;
    }
  }

  /** Text without `<` is shown as it is. */
  lemma {:induction false} StripPlain(s: string)
    requires '<' !in s
    ensures Strip(s, false) == s && !After(s, false)
    decreases |s|
  {
    if |s| > 0 {
      StripPlain(s[1..]);
    }
  }

  /** Inside an open tag, text without `>` is hidden and the tag stays open. */
  lemma {:induction false} StripInsideTag(s: string)
    requires '>' !in s
    ensures Strip(s, true) == "" && After(s, true)
    decreases |s|
  {
    if |s| > 0 {
      StripInsideTag(s[1..]);
    }
  }

  /** A complete tag `<inner>` is hidden entirely and leaves no tag open. */
  lemma StripTag(inner: string)
    requires '>' !in inner
    ensures Strip("<" + inner + ">", false) == "" && !After("<" + inner + ">", false)
  {
    StripAppend("<" + inner, ">", false);
    StripAppend("<", inner, false);
    StripInsideTag(inner);
  }

  /** Text between two complete tags shows as if the tags were not there. */
  lemma StripBetweenTags(open: string, mid: string, close: string)
    requires '>' !in open && '>' !in close
    requires !After(mid, false)
    ensures Strip("<" + open + ">" + mid + "<" + close + ">", false) == Strip(mid, false)
    ensures !After("<" + open + ">" + mid + "<" + close + ">", false)
  {
    var m1 := "<" + open + ">";
    var m2 := "<" + close + ">";
    assert "<" + open + ">" + mid + "<" + close + ">" == m1 + (mid + m2);
    StripTag(open);
    StripTag(close);
    StripAppend(m1, mid + m2, false);
    StripAppend(mid, m2, false);
  }
}
