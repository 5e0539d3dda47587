/** The attribute dictionary of an HTML node (`props` in src/htmlnode.py):
    rendering it as `key="value"` pairs, looking keys up, and comparing two
    dictionaries the way Python's dict equality does. */
module Attributes {
  import opened Wrappers

  /** One dictionary item: (key, value). */
  type Attribute = (string, string)

  /** Python dictionaries never hold a key twice. */
  predicate DistinctKeys(attrs: seq<Attribute>) {
    forall i, j :: 0 <= i < j < |attrs| ==> attrs[i].0 != attrs[j].0
  }

  /** A Python dict of attributes, in insertion order. */
  type Props = attrs: seq<Attribute> | DistinctKeys(attrs)

  // ---------------------------------------------------------------------------
  // Rendering
  // ---------------------------------------------------------------------------

  /** `sep.join(parts)` */
  function Join(sep: string, parts: seq<string>): string
  {
    if |parts| == 0 then ""
    else if |parts| == 1 then parts[0]
    else parts[0] + sep + Join(sep, parts[1..])
  }

  /** One item as `key="value"`. */
  function Format(attr: Attribute): string
  {
    attr.0 + "=\"" + attr.1 + "\""
  }

  /** Every item formatted, in order. */
  function FormatAll(attrs: seq<Attribute>): (r: seq<string>)
    ensures |r| == |attrs|
    ensures forall i :: 0 <= i < |attrs| ==> r[i] == Format(attrs[i])
  {
    if |attrs| == 0 then [] else [Format(attrs[0])] + FormatAll(attrs[1..])
  }

  /** `props_to_html`: the items formatted and separated by single spaces, in
      insertion order. */
  function PropsToHtml(attrs: seq<Attribute>): (r: string)
    ensures |attrs| == 0 <==> r == ""
    ensures |attrs| == 1 ==> r == Format(attrs[0])
  {
    var formatted := FormatAll(attrs);
    assert |attrs| > 0 ==> |formatted[0]| > 0;
    Join(" ", formatted)
  }

  /** Rendering the first item and then the rest: items are emitted in order,
      separated by exactly one space. */
  lemma PropsToHtmlCons(attrs: seq<Attribute>)
    requires |attrs| >= 2
    ensures PropsToHtml(attrs) == Format(attrs[0]) + " " + PropsToHtml(attrs[1..])
  {
    assert FormatAll(attrs)[1..] == FormatAll(attrs[1..]);
  }

  /** Rendering two non-empty lists one after the other joins their renderings
      with one space. */
  lemma {:induction false} PropsToHtmlAppend(a: seq<Attribute>, b: seq<Attribute>)
    requires |a| > 0 && |b| > 0
    ensures PropsToHtml(a + b) == PropsToHtml(a) + " " + PropsToHtml(b)
    decreases |a|
  {
    if |a| == 1 {
      PropsToHtmlCons(a + b);
      assert (a + b)[1..] == b;
    } else {
      PropsToHtmlCons(a + b);
      assert (a + b)[1..] == a[1..] + b;
      PropsToHtmlAppend(a[1..], b);
      PropsToHtmlCons(a);
    }
  }

  // ---------------------------------------------------------------------------
  // Reading a rendering back
  // ---------------------------------------------------------------------------

  /** Index of the first `c` in `s`, or `|s|` when there is none. */
  function IndexOf(s: string, c: char): (r: nat)
    ensures r <= |s|
    ensures r < |s| ==> s[r] == c
    ensures forall i :: 0 <= i < r ==> s[i] != c
  {
    if |s| == 0 then 0
    else if s[0] == c then 0
    else 1 + IndexOf(s[1..], c)
  }

  /** Reads one `key="value"` item off the front of `s`: the key runs to the
      first `=`, which must be followed by `"`, and the value runs to the next
      `"`. Returns the item and the text after its closing quote. */
  function ParseItem(s: string): (r: Option<(Attribute, string)>)
    ensures r.Some? ==> |r.value.1| < |s|
  {
    var i := IndexOf(s, '=');
    if i + 1 >= |s| || s[i + 1] != '"' then None
    else
      var rest := s[i + 2..];
      var j := IndexOf(rest, '"');
      if j == |rest| then None
      else Some(((s[..i], rest[..j]), rest[j + 1..]))
  }

  /** Reads a non-empty, space-separated list of items back. */
  function ParseItems(s: string): Option<seq<Attribute>>
    decreases |s|
  {
    match ParseItem(s)
    case None => None
    case Some((item, tail)) =>
      if |tail| == 0 then Some([item])
      else if tail[0] != ' ' then None
      else
        match ParseItems(tail[1..])
        case None => None
        case Some(more) => Some([item] + more)
  }

  /** Reads the output of `PropsToHtml` back into the list of items. */
  function ParseProps(s: string): Option<seq<Attribute>>
  {
    if |s| == 0 then Some([]) else ParseItems(s)
  }

  /** The items the reader can recover: keys without `=`, values without `"`. */
  predicate Readable(attrs: seq<Attribute>) {
    forall i :: 0 <= i < |attrs| ==> '=' !in attrs[i].0 && '"' !in attrs[i].1
  }

  lemma IndexOfAfter(prefix: string, c: char, suffix: string)
    requires c !in prefix
    ensures IndexOf(prefix + [c] + suffix, c) == |prefix|
  {
    var s := prefix + [c] + suffix;
    assert s[|prefix|] == c;
  }

  /** Reading one formatted item off the front of `Format(attr) + tail`. */
  lemma ParseFormattedItem(attr: Attribute, tail: string)
    requires '=' !in attr.0 && '"' !in attr.1
    ensures ParseItem(Format(attr) + tail) == Some((attr, tail))
  {
    var k, v := attr.0, attr.1;
    var rest := v + "\"" + tail;
    var s := k + "=" + ("\"" + rest);
    assert Format(attr) + tail == s;
    IndexOfAfter(k, '=', "\"" + rest);
    assert s[|k| + 1] == '"';
    assert s[|k| + 2..] == rest;
    assert s[..|k|] == k;
    IndexOfAfter(v, '"', tail);
    assert rest[..|v|] == v;
    assert rest[|v| + 1..] == tail;
  }

  lemma ParseSingleItem(attr: Attribute)
    requires '=' !in attr.0 && '"' !in attr.1
    ensures ParseItems(Format(attr)) == Some([attr])
  {
    ParseFormattedItem(attr, "");
    assert Format(attr) + "" == Format(attr);
  }

  lemma ParseItemThenMore(attr: Attribute, more: string, items: seq<Attribute>)
    requires '=' !in attr.0 && '"' !in attr.1
    requires ParseItems(more) == Some(items)
    ensures ParseItems(Format(attr) + " " + more) == Some([attr] + items)
  {
    ParseFormattedItem(attr, " " + more);
    assert Format(attr) + " " + more == Format(attr) + (" " + more);
    assert (" " + more)[1..] == more;
  }

  lemma {:induction false} ParseItemsRoundTrip(attrs: seq<Attribute>)
    requires |attrs| > 0 && Readable(attrs)
    ensures ParseItems(PropsToHtml(attrs)) == Some(attrs)
    decreases |attrs|
  {
    if |attrs| == 1 {
      ParseSingleItem(attrs[0]);
      assert [attrs[0]] == attrs;
    } else {
      var rest := attrs[1..];
      assert Readable(rest);
      PropsToHtmlCons(attrs);
      ParseItemsRoundTrip(rest);
      ParseItemThenMore(attrs[0], PropsToHtml(rest), rest);
      assert [attrs[0]] + rest == attrs;
    }
  }

  /** Every readable attribute list is recovered from its rendering: the
      rendering is unambiguous, so distinct lists render differently. */
  lemma PropsToHtmlRoundTrip(attrs: seq<Attribute>)
    requires Readable(attrs)
    ensures ParseProps(PropsToHtml(attrs)) == Some(attrs)
  {
    if |attrs| > 0 {
      ParseItemsRoundTrip(attrs);
    }
  }

  // ---------------------------------------------------------------------------
  // Lookup and dictionary equality
  // ---------------------------------------------------------------------------

  /** The set of keys. */
  function Keys(attrs: seq<Attribute>): (ks: set<string>)
    ensures forall i :: 0 <= i < |attrs| ==> attrs[i].0 in ks
    ensures forall k :: k in ks ==> exists i :: 0 <= i < |attrs| && attrs[i].0 == k
  {
    if |attrs| == 0 then {} else {attrs[0].0} + Keys(attrs[1..])
  }

  /** `props.get(key)`: the value stored under `key`, if any. */
  function Get(attrs: seq<Attribute>, key: string): (r: Option<string>)
    ensures r.Some? <==> key in Keys(attrs)
    ensures r.Some? ==> exists i :: 0 <= i < |attrs| && attrs[i] == (key, r.value)
  {
    if |attrs| == 0 then None
    else if attrs[0].0 == key then Some(attrs[0].1)
    else
      var r := Get(attrs[1..], key);
      assert r.Some? ==> exists i :: 0 <= i < |attrs| && attrs[i] == (key, r.value) by {
        if r.Some? {
          var i :| 0 <= i < |attrs[1..]| && attrs[1..][i] == (key, r.value);
          assert attrs[i + 1] == (key, r.value);
        }
      }
      r
  }

  /** In a dictionary each stored item is what a lookup of its key returns. */
  lemma GetItem(attrs: Props, i: nat)
    requires i < |attrs|
    ensures Get(attrs, attrs[i].0) == Some(attrs[i].1)
  {
    var r := Get(attrs, attrs[i].0);
    var j :| 0 <= j < |attrs| && attrs[j] == (attrs[i].0, r.value);
    if j != i {
      assert attrs[i].0 == attrs[j].0;
    }
  }

  /** A dictionary has as many keys as items. */
  lemma {:induction false} KeysCount(attrs: Props)
    ensures |Keys(attrs)| == |attrs|
    decreases |attrs|
  {
    if |attrs| > 0 {
      var rest: Props := attrs[1..];
      KeysCount(rest);
    }
  }

  /** Python's dict equality: same size, and every item of `a` is stored in `b`. */
  predicate DictEq(a: Props, b: Props) {
    |a| == |b| && forall i :: 0 <= i < |a| ==> Get(b, a[i].0) == Some(a[i].1)
  }

  /** Equality of two dictionaries as mappings: every key looks up the same. */
  ghost predicate SameMapping(a: Props, b: Props) {
    forall k :: Get(a, k) == Get(b, k)
  }

  lemma {:induction false} SubsetSize(x: set<string>, y: set<string>)
    requires x <= y
    ensures |x| <= |y|
    decreases x
  {
    if x != {} {
      var a :| a in x;
      SubsetSize(x - {a}, y - {a});
    }
  }

  lemma SubsetOfSameSize(x: set<string>, y: set<string>)
    requires x <= y && |x| == |y|
    ensures x == y
  {
    if x != y {
      assert exists e :: e in y && e !in x;
      var e :| e in y && e !in x;
      SubsetSize(x, y - {e});
    }
  }

  /** Python's algorithm decides exactly mapping equality: insertion order is
      irrelevant to `==` on dictionaries. */
  lemma DictEqIsSameMapping(a: Props, b: Props)
    ensures DictEq(a, b) <==> SameMapping(a, b)
  {
    KeysCount(a);
    KeysCount(b);
    if DictEq(a, b) {
      assert Keys(a) <= Keys(b) by {
        forall k | k in Keys(a) ensures k in Keys(b) {
          var i :| 0 <= i < |a| && a[i].0 == k;
        }
      }
      SubsetOfSameSize(Keys(a), Keys(b));
      forall k ensures Get(a, k) == Get(b, k) {
        if k in Keys(a) {
          var i :| 0 <= i < |a| && a[i].0 == k;
          GetItem(a, i);
        }
      }
    }
    if SameMapping(a, b) {
      assert Keys(a) == Keys(b) by {
        forall k ensures k in Keys(a) <==> k in Keys(b) {
          assert Get(a, k) == Get(b, k);
        }
      }
      forall i | 0 <= i < |a| ensures Get(b, a[i].0) == Some(a[i].1) {
        GetItem(a, i);
      }
    }
  }

  /** Two orderings of the same items are equal dictionaries. */
  lemma DictEqIgnoresOrder(a: Props, b: Props)
    requires |a| == |b|
    requires forall i :: 0 <= i < |a| ==> a[i] in b
    ensures DictEq(a, b)
  {
    forall i | 0 <= i < |a| ensures Get(b, a[i].0) == Some(a[i].1) {
      var j :| 0 <= j < |b| && b[j] == a[i];
      GetItem(b, j);
    }
  }
}
