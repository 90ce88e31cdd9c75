/** The pattern matcher of grep: literals, '.', x* and, at the ends, '^' and '$'.
    Strings are the characters before the terminating zero byte. */
module Matcher {

  // ---- What a pattern means ----

  /** A pattern without anchors: single characters and repetitions of one. */
  datatype Item = One(c: char) | Star(c: char)

  /** The items of a pattern and whether it ends in the anchor '$'. A '*' not
      after a character, a '^' not at the start and a '$' not at the end stand
      for themselves. */
  datatype Pattern = Pattern(items: seq<Item>, anchored: bool)

  function Parse(re: string): (p: Pattern) {
    if re == "" then Pattern([], false)
    else if |re| >= 2 && re[1] == '*' then
      var p := Parse(re[2..]);
      Pattern([Star(re[0])] + p.items, p.anchored)
    else if re == "$" then Pattern([], true)
    else
      var p := Parse(re[1..]);
      Pattern([One(re[0])] + p.items, p.anchored)
  }

  predicate Fits(c: char, x: char) { c == '.' || c == x }

  ghost predicate AllFit(c: char, s: string) {
    forall i :: 0 <= i < |s| ==> Fits(c, s[i])
  }

  /** `s` is in the language of the items: one piece for each, in order. */
  ghost predicate InLanguage(items: seq<Item>, s: string)
    decreases |items|
  {
    if items == [] then s == ""
    else exists k :: 0 <= k <= |s| && InItem(items[0], s[..k]) && InLanguage(items[1..], s[k..])
  }

  ghost predicate InItem(t: Item, s: string) {
    match t
    case One(c) => |s| == 1 && Fits(c, s[0])
    case Star(c) => AllFit(c, s)
  }

  /** Some string of the pattern's language starts the text; all of the text if
      the pattern is anchored at its end. */
  ghost predicate StartsWith(re: string, text: string) {
    exists n :: 0 <= n <= |text| && InLanguage(Parse(re).items, text[..n]) && (Parse(re).anchored ==> n == |text|)
  }

  /** What match promises: a start anywhere, or at the front under '^'. */
  ghost predicate Contains(re: string, text: string) {
    if re != "" && re[0] == '^' then StartsWith(re[1..], text)
    else exists i :: 0 <= i <= |text| && StartsWith(re, text[i..])
  }

  // ---- One item at a time ----

  lemma EmptyStarts(text: string)
    ensures StartsWith("", text)
  {
    assert InLanguage([], text[..0]);
  }

  lemma AnchorStarts(text: string)
    ensures StartsWith("$", text) <==> text == ""
  {
    if text == "" {
      assert InLanguage([], text[..0]);
    }
  }

  lemma OneStarts(re: string, text: string)
    requires re != "" && !(|re| >= 2 && re[1] == '*') && re != "$"
    ensures StartsWith(re, text) <==> text != "" && Fits(re[0], text[0]) && StartsWith(re[1..], text[1..])
  {
    var p, q := Parse(re), Parse(re[1..]);
    assert p.items[1..] == q.items;
    if StartsWith(re, text) {
      var n :| 0 <= n <= |text| && InLanguage(p.items, text[..n]) && (p.anchored ==> n == |text|);
      var s := text[..n];
      var k :| 0 <= k <= |s| && InItem(p.items[0], s[..k]) && InLanguage(p.items[1..], s[k..]);
      assert s[1..] == text[1..][..n - 1];
    }
    if text != "" && Fits(re[0], text[0]) && StartsWith(re[1..], text[1..]) {
      var n :| 0 <= n <= |text[1..]| && InLanguage(q.items, text[1..][..n]) && (q.anchored ==> n == |text[1..]|);
      var s := text[..n + 1];
      assert s[1..] == text[1..][..n] && InItem(p.items[0], s[..1]);
      assert InLanguage(p.items, s);
    }
  }

  lemma StarStarts(re: string, text: string)
    requires |re| >= 2 && re[1] == '*'
    ensures StartsWith(re, text) <==>
            exists k :: 0 <= k <= |text| && AllFit(re[0], text[..k]) && StartsWith(re[2..], text[k..])
  {
    if StartsWith(re, text) {
      StarSplits(re, text);
    }
    if exists k :: 0 <= k <= |text| && AllFit(re[0], text[..k]) && StartsWith(re[2..], text[k..]) {
      var k :| 0 <= k <= |text| && AllFit(re[0], text[..k]) && StartsWith(re[2..], text[k..]);
      StarJoins(re, text, k);
    }
  }

  lemma StarSplits(re: string, text: string)
    requires |re| >= 2 && re[1] == '*' && StartsWith(re, text)
    ensures exists k :: 0 <= k <= |text| && AllFit(re[0], text[..k]) && StartsWith(re[2..], text[k..])
  {
    var p, q := Parse(re), Parse(re[2..]);
    assert p.items[0] == Star(re[0]) && p.items[1..] == q.items && p.anchored == q.anchored;
    hide Parse;
    var n :| 0 <= n <= |text| && InLanguage(p.items, text[..n]) && (p.anchored ==> n == |text|);
    var s := text[..n];
    var k :| 0 <= k <= |s| && InItem(p.items[0], s[..k]) && InLanguage(p.items[1..], s[k..]);
    assert s[..k] == text[..k] && s[k..] == text[k..][..n - k];
    assert StartsWith(re[2..], text[k..]);
  }

  lemma StarJoins(re: string, text: string, k: nat)
    requires |re| >= 2 && re[1] == '*' && k <= |text| && AllFit(re[0], text[..k]) && StartsWith(re[2..], text[k..])
    ensures StartsWith(re, text)
  {
    var p, q := Parse(re), Parse(re[2..]);
    assert p.items[0] == Star(re[0]) && p.items[1..] == q.items && p.anchored == q.anchored;
    hide Parse;
    var n :| 0 <= n <= |text[k..]| && InLanguage(q.items, text[k..][..n]) && (q.anchored ==> n == |text[k..]|);
    var s := text[..k + n];
    assert s[..k] == text[..k] && s[k..] == text[k..][..n];
    assert InItem(p.items[0], s[..k]);
    assert InLanguage(p.items, s);
  }

  // ---- Patterns of plain characters ----

  /** Characters that stand for themselves wherever they are. */
  predicate Plain(re: string) {
    forall i :: 0 <= i < |re| ==> re[i] != '.' && re[i] != '*' && re[i] != '^' && re[i] != '$'
  }

  lemma {:induction false} PlainStarts(re: string, text: string)
    requires Plain(re)
    ensures StartsWith(re, text) <==> re <= text
    decreases |re|
  {
    if re == "" {
      EmptyStarts(text);
    } else {
      assert re[0] != '$';
      OneStarts(re, text);
      if text != "" {
        PlainStarts(re[1..], text[1..]);
        assert re <= text <==> re[0] == text[0] && re[1..] <= text[1..] by {
          assert re == [re[0]] + re[1..] && text == [text[0]] + text[1..];
        }
      }
    }
  }

  lemma {:induction false} PlainIsAll(re: string, text: string)
    requires Plain(re)
    ensures StartsWith(re + "$", text) <==> text == re
    decreases |re|
  {
    if re == "" {
      assert re + "$" == "$";
      AnchorStarts(text);
    } else {
      OneStarts(re + "$", text);
      assert (re + "$")[1..] == re[1..] + "$";
      if text != "" {
        PlainIsAll(re[1..], text[1..]);
        assert re == [re[0]] + re[1..] && text == [text[0]] + text[1..];
      }
    }
  }

  /** A plain pattern is found where the text has it: anywhere, at the front, at the
      end, or as the whole, as the anchors say. */
  lemma PlainFound(re: string, text: string)
    requires Plain(re)
    ensures Contains(re, text) <==> exists i :: 0 <= i <= |text| && re <= text[i..]
    ensures Contains("^" + re, text) <==> re <= text
    ensures Contains(re + "$", text) <==> |re| <= |text| && text[|text| - |re|..] == re
    ensures Contains("^" + re + "$", text) <==> text == re
  {
    hide StartsWith;
    assert ("^" + re)[1..] == re && ("^" + re + "$")[1..] == re + "$";
    PlainStarts(re, text);
    PlainIsAll(re, text);
    forall i | 0 <= i <= |text|
      ensures StartsWith(re, text[i..]) <==> re <= text[i..]
      ensures StartsWith(re + "$", text[i..]) <==> text[i..] == re
    {
      PlainStarts(re, text[i..]);
      PlainIsAll(re, text[i..]);
    }
    assert forall i :: 0 <= i <= |text| && text[i..] == re ==> i == |text| - |re|;
  }

  /** The anchor alone is found in every text, at its end. */
  lemma EndFound(text: string)
    ensures Contains("$", text)
  {
    PlainFound("", text);
    assert "" + "$" == "$";
  }

  /** A character repeated, or with '.' any characters, and then a plain pattern. */
  lemma StarFound(c: char, re: string, text: string)
    requires Plain(re) && Plain([c])
    ensures StartsWith([c] + "*" + re, text) <==>
            exists k :: 0 <= k <= |text| && (forall i :: 0 <= i < k ==> text[i] == c) && re <= text[k..]
    ensures StartsWith(".*" + re, text) <==> exists k :: 0 <= k <= |text| && re <= text[k..]
  {
    assert ([c] + "*" + re)[2..] == re && (".*" + re)[2..] == re;
    StarStarts([c] + "*" + re, text);
    StarStarts(".*" + re, text);
    hide StartsWith;
    forall k | 0 <= k <= |text|
      ensures StartsWith(re, text[k..]) <==> re <= text[k..]
      ensures AllFit(c, text[..k]) <==> forall i :: 0 <= i < k ==> text[i] == c
      ensures AllFit('.', text[..k])
    {
      PlainStarts(re, text[k..]);
      CharFits(c, text, k);
    }
  }

  lemma CharFits(c: char, text: string, k: nat)
    requires k <= |text| && c != '.'
    ensures AllFit(c, text[..k]) <==> forall i :: 0 <= i < k ==> text[i] == c
    ensures AllFit('.', text[..k])
  {
    if AllFit(c, text[..k]) {
      forall i | 0 <= i < k
        ensures text[i] == c
      {
        assert text[..k][i] == text[i];
      }
    }
  }

  // ---- The matcher ----

  /** match. */
  method Match(re: string, text: string) returns (b: bool)
    ensures b <==> Contains(re, text)
  {
    if re != "" && re[0] == '^' {
      b := MatchHere(re[1..], text);
      return;
    }
    var i := 0;
    while true
      invariant 0 <= i <= |text| && forall j :: 0 <= j < i ==> !StartsWith(re, text[j..])
      decreases |text| - i
    {
      b := MatchHere(re, text[i..]);
      if b {
        return;
      }
      if i == |text| {
        return;
      }
      i := i + 1;
    }
  }

  /** matchhere: whether a match starts right here. */
  method MatchHere(re: string, text: string) returns (b: bool)
    ensures b <==> StartsWith(re, text)
    decreases |re|, 0
  {
    if re == "" {
      EmptyStarts(text);
      return true;
    }
    if |re| >= 2 && re[1] == '*' {
      StarStarts(re, text);
      b := MatchStar(re[0], re[2..], text);
      return;
    }
    if re == "$" {
      AnchorStarts(text);
      return text == "";
    }
    OneStarts(re, text);
    if text != "" && (re[0] == '.' || re[0] == text[0]) {
      b := MatchHere(re[1..], text[1..]);
      return;
    }
    b := false;
  }

  /** matchstar: some number of fitting characters and then the rest. */
  method MatchStar(c: char, re: string, text: string) returns (b: bool)
    ensures b <==> exists k :: 0 <= k <= |text| && AllFit(c, text[..k]) && StartsWith(re, text[k..])
    decreases |re|, 1
  {
    var k := 0;
    while true
      invariant 0 <= k <= |text| && AllFit(c, text[..k])
      invariant forall j :: 0 <= j < k ==> !StartsWith(re, text[j..])
      decreases |text| - k
    {
      b := MatchHere(re, text[k..]);
      if b {
        return;
      }
      if k == |text| || !(text[k] == c || c == '.') {
        assert forall j :: k < j <= |text| ==> !AllFit(c, text[..j]) by {
          forall j | k < j <= |text|
            ensures !AllFit(c, text[..j])
          {
            assert text[..j][k] == text[k];
          }
        }
        return;
      }
      k := k + 1;
    }
  }
}
