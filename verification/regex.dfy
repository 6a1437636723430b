/** The matcher of user/grep.c against the language of its patterns.
    Pattern and text are C strings, given by their characters before the terminating NUL. */
module Regex {

  // ----- what patterns mean -----

  datatype Item = One(c: char) | Star(c: char) | End

  /** A pattern after its `^`, if it has one. */
  function Items(re: string): seq<Item>
    decreases |re|
  {
    if re == "" then []
    else if |re| > 1 && re[1] == '*' then [Star(re[0])] + Items(re[2..])
    else if re == "$" then [End]
    else [One(re[0])] + Items(re[1..])
  }

  predicate Fits(c: char, x: char) {
    c == '.' || c == x
  }

  predicate AllFit(c: char, w: string) {
    forall i :: 0 <= i < |w| ==> Fits(c, w[i])
  }

  /** The strings an item stands for. */
  predicate ItemLang(it: Item, w: string) {
    match it
    case One(c) => |w| == 1 && Fits(c, w[0])
    case Star(c) => AllFit(c, w)
    case End => w == ""
  }

  /** The concatenation of the items' languages. */
  ghost predicate Lang(items: seq<Item>, w: string)
    decreases |items|
  {
    if items == [] then w == ""
    else exists k :: 0 <= k <= |w| && ItemLang(items[0], w[..k]) && Lang(items[1..], w[k..])
  }

  predicate EndsText(re: string) {
    End in Items(re)
  }

  /** text starts with a string of the pattern, which is all of the text if the pattern ends in `$`. */
  ghost predicate HereTo(re: string, text: string, n: nat) {
    n <= |text| && Lang(Items(re), text[..n]) && (EndsText(re) ==> n == |text|)
  }

  ghost predicate Here(re: string, text: string) {
    exists n: nat :: HereTo(re, text, n)
  }

  /** Some substring of the text, anchored as `^` and `$` demand, is a string of the pattern. */
  ghost predicate Found(re: string, text: string) {
    if re != "" && re[0] == '^' then Here(re[1..], text)
    else exists k :: 0 <= k <= |text| && Here(re, text[k..])
  }

  // ----- one item at a time -----

  lemma {:induction false} HereEmpty(text: string)
    ensures Here("", text)
  {
    assert text[..0] == "";
    assert HereTo("", text, 0);
  }

  lemma {:induction false} HereEnd(text: string)
    ensures Here("$", text) <==> text == ""
  {
    assert Items("$") == [End];
    if text == "" {
      assert text[..0][..0] == "" && text[..0][0..] == "" && [End][1..] == [];
      assert HereTo("$", text, 0);
    }
    if Here("$", text) {
      var n: nat :| HereTo("$", text, n);
      var k :| 0 <= k <= |text[..n]| && ItemLang(End, text[..n][..k]) && Lang([End][1..], text[..n][k..]);
      assert End in Items("$");
    }
  }

  /** The pattern is an item, not `$`, and a rest that starts at d. */
  predicate Splits(re: string, d: nat) {
    d <= |re| && Items(re) != [] && Items(re)[0] != End && Items(re)[1..] == Items(re[d..])
  }

  /** The first item takes k characters and the rest of the pattern goes on from there. */
  lemma {:induction false} HereSplits(re: string, text: string, d: nat)
    requires Splits(re, d)
    ensures Here(re, text) <==>
      exists k :: 0 <= k <= |text| && ItemLang(Items(re)[0], text[..k]) && Here(re[d..], text[k..])
  {
    var items := Items(re);
    assert items == [items[0]] + items[1..];
    assert EndsText(re) <==> EndsText(re[d..]);
    if Here(re, text) {
      var n: nat :| HereTo(re, text, n);
      var w := text[..n];
      var k :| 0 <= k <= |w| && ItemLang(items[0], w[..k]) && Lang(items[1..], w[k..]);
      assert w[..k] == text[..k] && w[k..] == text[k..][..n - k];
      assert HereTo(re[d..], text[k..], n - k);
    }
    if exists k :: 0 <= k <= |text| && ItemLang(items[0], text[..k]) && Here(re[d..], text[k..]) {
      var k :| 0 <= k <= |text| && ItemLang(items[0], text[..k]) && Here(re[d..], text[k..]);
      var m: nat :| HereTo(re[d..], text[k..], m);
      var w := text[..k + m];
      assert w[..k] == text[..k] && w[k..] == text[k..][..m];
      assert Lang(items, w);
      assert HereTo(re, text, k + m);
    }
  }

  lemma {:induction false} HereOne(re: string, text: string)
    requires re != "" && re != "$" && !(|re| > 1 && re[1] == '*')
    ensures Here(re, text) <==> text != "" && Fits(re[0], text[0]) && Here(re[1..], text[1..])
  {
    HereSplits(re, text, 1);
    if text != "" && Fits(re[0], text[0]) && Here(re[1..], text[1..]) {
      assert ItemLang(Items(re)[0], text[..1]);
    }
  }

  lemma {:induction false} HereStar(re: string, text: string)
    requires |re| > 1 && re[1] == '*'
    ensures Here(re, text) <==> exists k :: 0 <= k <= |text| && AllFit(re[0], text[..k]) && Here(re[2..], text[k..])
  {
    HereSplits(re, text, 2);
  }

  // ----- the matcher -----

  method Match(re: string, text: string) returns (r: bool)
    ensures r <==> Found(re, text)
  {
    if re != "" && re[0] == '^' {
      r := MatchHere(re[1..], text);
      return;
    }
    var t := 0;
    while true
      invariant t <= |text| && forall k :: 0 <= k < t ==> !Here(re, text[k..])
      decreases |text| - t
    {
      r := MatchHere(re, text[t..]);
      if r {
        return true;
      }
      if t == |text| {
        return false;
      }
      t := t + 1;
    }
  }

  method MatchHere(re: string, text: string) returns (r: bool)
    ensures r <==> Here(re, text)
    decreases |re|, 0
  {
    if re == "" {
      HereEmpty(text);
      return true;
    }
    if |re| > 1 && re[1] == '*' {
      HereStar(re, text);
      r := MatchStar(re[0], re[2..], text);
      return;
    }
    if re[0] == '$' && |re| == 1 {
      HereEnd(text);
      assert re == "$";
      return text == "";
    }
    HereOne(re, text);
    if text != "" && (re[0] == '.' || re[0] == text[0]) {
      r := MatchHere(re[1..], text[1..]);
      return;
    }
    return false;
  }

  method MatchStar(c: char, re: string, text: string) returns (r: bool)
    ensures r <==> exists k :: 0 <= k <= |text| && AllFit(c, text[..k]) && Here(re, text[k..])
    decreases |re|, 1
  {
    var t := 0;
    while true
      invariant t <= |text| && AllFit(c, text[..t]) && forall k :: 0 <= k < t ==> !Here(re, text[k..])
      decreases |text| - t
    {
      r := MatchHere(re, text[t..]);
      if r {
        return true;
      }
      if t == |text| {
        return false;
      }
      if !(text[t] == c || c == '.') {
        assert forall k :: t < k <= |text| ==> !AllFit(c, text[..k]) by {
          forall k | t < k <= |text|
            ensures !AllFit(c, text[..k])
          {
            assert !Fits(c, text[..k][t]);
          }
        }
        return false;
      }
      t := t + 1;
    }
  }
}
